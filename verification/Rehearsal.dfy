/** Which links a publication passes by, row by row: what decides whether a journal whose
    process died can be taken up again. */
module Rehearsal {
  import opened Common
  import opened Trees
  import opened Resolution
  import opened PublicationRows
  import opened PublicationSteps

  /** A tree with this node's fingerprint. */
  function MakeTree(node: Node): Tree {
    match node
    case File(mode, digest) => Reg(mode, digest.content)
    case Symlink(target) => Link(target)
    case Directory(mode, entries) => Dir(mode, 0, map n | n in entries :: MakeTree(entries[n]))
  }

  function Made(o: Option<Node>): Option<Tree> {
    if o.Some? then Some(MakeTree(o.value)) else None
  }

  lemma {:induction false} MadeIsNode(node: Node)
    ensures PathState(MakeTree(node)) == node
    decreases node
  {
    if node.Directory? {
      forall n | n in node.entries ensures PathState(MakeTree(node.entries[n])) == node.entries[n] {
        MadeIsNode(node.entries[n]);
      }
    }
  }

  // ---- the publication, rehearsed ----

  /** The tree once the first `k` rows are published. */
  function Rehearsed(t: Tree, rows: seq<Row>, k: nat): Tree
    requires k <= |rows|
  {
    if k == 0 then t
    else
      var row, before := rows[k - 1], Rehearsed(t, rows, k - 1);
      if row.before == row.after then before else Put(before, row.target, Made(row.after))
  }

  /** The tree between the two renames of row `k`. */
  function Torn(t: Tree, rows: seq<Row>, k: nat): Tree
    requires k < |rows|
  {
    Put(Rehearsed(t, rows, k), rows[k].target, None)
  }

  /** The rows as the journal has them then, whatever they say now. */
  function Marked(rows: seq<Row>, k: nat): seq<Row> {
    seq(|rows|, i requires 0 <= i < |rows| => MarkedRow(rows[i], i < k))
  }

  function MarkedRow(row: Row, published: bool): Row {
    row.(status := if published then Applied else Pending, work := None, identity := if published then Some(0) else None)
  }

  predicate Changes(row: Row) {
    row.before != row.after
  }

  predicate TwoRenames(row: Row) {
    row.before != row.after && MovesOut(row.before, row.after)
  }

  /** The publication as it is prepared: no row begun, and all as it was recorded. */
  ghost predicate AsPlanned(t: Tree, rows: seq<Row>) {
    Progress(t, Marked(rows, 0), 0)
  }

  /** The replay stands where a run with row `k`'s turn to come would. */
  lemma RehearsalGoes(t: Tree, rows: seq<Row>, k: nat)
    requires AsPlanned(t, rows) && k <= |rows|
    ensures Progress(Rehearsed(t, rows, k), Marked(rows, k), k)
  {
    var next, marked := t, Marked(rows, 0);
    for i := 0 to k
      invariant next == Rehearsed(t, rows, i) && marked == Marked(rows, i) && Progress(next, marked, i)
    {
      var before, was := next, marked;
      next, marked := Rehearsed(t, rows, i + 1), Marked(rows, i + 1);
      RehearsalNext(t, rows, i, before, was, next, marked);
    }
  }

  lemma RehearsalNext(t: Tree, rows: seq<Row>, k: nat, before: Tree, was: seq<Row>, next: Tree, marked: seq<Row>)
    requires k < |rows| && before == Rehearsed(t, rows, k) && was == Marked(rows, k) && Progress(before, was, k)
    requires next == Rehearsed(t, rows, k + 1) && marked == Marked(rows, k + 1)
    ensures Progress(next, marked, k + 1)
  {
    MarkedNext(rows, k);
    RehearsalStep(before, was, k);
    RehearsedNext(t, rows, k);
  }

  /** It changes nothing apart from the outputs. */
  lemma RehearsalKeeps(t: Tree, rows: seq<Row>, k: nat)
    requires AsPlanned(t, rows) && k <= |rows|
    ensures Untouched(t, Rehearsed(t, rows, k), rows)
  {
    var next := t;
    for i := 0 to k
      invariant next == Rehearsed(t, rows, i) && Untouched(t, next, rows)
    {
      var before := next;
      next := Rehearsed(t, rows, i + 1);
      KeepsNext(t, rows, i, before, next);
    }
  }

  lemma KeepsNext(t: Tree, rows: seq<Row>, k: nat, before: Tree, next: Tree)
    requires AsPlanned(t, rows) && k < |rows| && Untouched(t, before, rows)
    requires before == Rehearsed(t, rows, k) && next == Rehearsed(t, rows, k + 1)
    ensures Untouched(t, next, rows)
  {
    RehearsedNext(t, rows, k);
    if Changes(rows[k]) { KeptNext(t, rows, k); }
  }

  lemma KeptNext(t: Tree, rows: seq<Row>, k: nat)
    requires AsPlanned(t, rows) && k < |rows| && Changes(rows[k]) && Untouched(t, Rehearsed(t, rows, k), rows)
    ensures Untouched(t, Put(Rehearsed(t, rows, k), rows[k].target, Made(rows[k].after)), rows)
  {
    RehearsedHome(t, rows, k);
    RehearsalGoes(t, rows, k);
    MarkedNext(rows, k);
    assert Waiting(Rehearsed(t, rows, k), Marked(rows, k)[k]);
    RehearsedEmpty(Marked(rows, k)[k]);
    UntouchedStays(t, Rehearsed(t, rows, k), rows[k].target, Made(rows[k].after), rows, k);
  }

  lemma RehearsedNext(t: Tree, rows: seq<Row>, k: nat)
    requires k < |rows|
    ensures Rehearsed(t, rows, k + 1) ==
            if Changes(rows[k]) then Put(Rehearsed(t, rows, k), rows[k].target, Made(rows[k].after)) else Rehearsed(t, rows, k)
  {
  }

  lemma MarkedNext(rows: seq<Row>, k: nat)
    requires k < |rows|
    ensures var marked := Marked(rows, k);
            && marked[k].status.Pending? && MarkedRow(marked[k], true) == MarkedRow(rows[k], true)
            && marked[k := MarkedRow(marked[k], true)] == Marked(rows, k + 1)
            && marked[k].target == rows[k].target && marked[k].before == rows[k].before && marked[k].after == rows[k].after
  {
  }

  /** One row of it. */
  lemma RehearsalStep(t: Tree, rows: seq<Row>, k: nat)
    requires k < |rows| && Progress(t, rows, k) && rows[k].status.Pending?
    ensures var row := MarkedRow(rows[k], true);
            var next := if row.before == row.after then t else Put(t, row.target, Made(row.after));
            Progress(next, rows[k := row], k + 1)
  {
    var row, target := MarkedRow(rows[k], true), rows[k].target;
    assert OwnNames(target);
    var next := t;
    if row.before == row.after {
      assert !row.ensure;
    } else {
      HomeIsThere(t, rows, k);
      if row.after.Some? { MadeIsNode(row.after.value); }
      RehearsedEmpty(rows[k]);
      KeepOthers(t, target, Made(row.after), rows, k);
      PutAt(t, target, Made(row.after));
      next := Put(t, target, Made(row.after));
    }
    UpdateRow(next, rows, k, row);
    assert Settled(next, row);
    Advance(next, rows[k := row], k);
  }

  lemma RehearsedEmpty(row: Row)
    requires row.ensure ==> row.after == Some(EmptyDirectory())
    ensures EmptyIfEnsured(row, row.target, Made(row.after))
  {
  }

  lemma TornGoes(t: Tree, rows: seq<Row>, k: nat)
    requires AsPlanned(t, rows) && k < |rows| && TwoRenames(rows[k])
    ensures Others(Torn(t, rows, k), Marked(rows, k), k) && Untouched(t, Torn(t, rows, k), rows)
    ensures HasNode(Torn(t, rows, k), rows[k].target, None)
  {
    RehearsalGoes(t, rows, k);
    var before, marked := Rehearsed(t, rows, k), Marked(rows, k);
    assert OwnNames(marked[k].target);
    HomeIsThere(before, marked, k);
    KeepOthers(before, marked[k].target, None, marked, k);
    RehearsalKeeps(t, rows, k);
    UntouchedStays(t, before, rows[k].target, None, rows, k);
    PutAt(before, marked[k].target, None);
  }

  // ---- what is live decides what links there are ----

  /** The outputs as nodes; an ensured directory may hold anything. */
  ghost predicate Shows(t: Tree, rows: seq<Row>, nodes: seq<Option<Node>>) {
    && |nodes| == |rows|
    && forall i | 0 <= i < |rows| :: OwnNames(rows[i].target) && ShowsRow(t, rows[i], nodes[i])
  }

  predicate ShowsRow(t: Tree, row: Row, node: Option<Node>) {
    if row.ensure then HasNode(t, row.target, None) || IsDir(t, row.target) else HasNode(t, row.target, node)
  }

  function NodesAt(rows: seq<Row>, k: nat, node: Option<Node>): seq<Option<Node>> {
    seq(|rows|, i requires 0 <= i < |rows| => if i < k then rows[i].after else if i == k then node else rows[i].before)
  }

  /** Two trees that show the same outputs in the same surroundings have the same links. */
  lemma ShowAlike(first: Tree, a: Tree, b: Tree, rows: seq<Row>, nodes: seq<Option<Node>>)
    requires Shows(a, rows, nodes) && Shows(b, rows, nodes)
    requires Untouched(first, a, rows) && Untouched(first, b, rows)
    ensures LinksAlike(a, b)
  {
    forall q | OwnNames(q) ensures LinkText(a, q) == LinkText(b, q) {
      if i :| 0 <= i < |rows| && !Spared(q, rows[i]) {
        ShowsRowAlike(a, b, rows[i], nodes[i], q);
      } else {
        assert Elsewhere(rows, q);
        assert Surroundings(a, rows)[q] == Surroundings(first, rows)[q] == Surroundings(b, rows)[q];
      }
    }
  }

  lemma ShowsRowAlike(a: Tree, b: Tree, row: Row, node: Option<Node>, q: Path)
    requires row.target != [] && ShowsRow(a, row, node) && ShowsRow(b, row, node) && !Spared(q, row)
    ensures LinkText(a, q) == LinkText(b, q)
  {
    if q < row.target {
      NoLinkAbove(a, row, node, q);
      NoLinkAbove(b, row, node, q);
    } else if !row.ensure {
      var r := q[|row.target|..];
      assert q == row.target + r;
      LookupSplit(a, row.target, r);
      LookupSplit(b, row.target, r);
      if node.Some? {
        SameStateSameLinks(Lookup(a, row.target).value, Lookup(b, row.target).value, r);
      }
    } else {
      assert q == row.target;
    }
  }

  lemma NoLinkAbove(t: Tree, row: Row, node: Option<Node>, q: Path)
    requires row.target != [] && ShowsRow(t, row, node) && q < row.target
    ensures LinkText(t, q).None?
  {
    if IsDir(t, row.target) { FoundThroughDirectories(t, row.target, q); }
    RedirectedBy(t, row.target);
    DanglingIsBelowLink(t, row.target);
    assert !LinkAt(t, q) || Redirected(t, row.target);
  }

  /** What a recoverable state shows: rows done, rows to do, and one in between. */
  lemma ProgressShows(t: Tree, rows: seq<Row>, k: nat, node: Option<Node>)
    requires Others(t, rows, k)
    requires k < |rows| ==> ShowsRow(t, rows[k], node)
    ensures Shows(t, rows, NodesAt(rows, k, node))
  {
    forall i | 0 <= i < |rows| ensures ShowsRow(t, rows[i], NodesAt(rows, k, node)[i]) {
      assert i < k ==> Settled(t, rows[i]);
      assert i > k ==> Waiting(t, rows[i]);
    }
  }

  lemma MarkedSame(rows: seq<Row>, k: nat)
    ensures SamePlan(rows, Marked(rows, k))
  {
  }

  lemma ShowsMarked(t: Tree, rows: seq<Row>, k: nat, nodes: seq<Option<Node>>)
    requires Shows(t, Marked(rows, k), nodes)
    ensures Shows(t, rows, nodes)
  {
    forall i | 0 <= i < |rows| ensures OwnNames(rows[i].target) && ShowsRow(t, rows[i], nodes[i]) {
      assert Marked(rows, k)[i].target == rows[i].target && ShowsRow(t, Marked(rows, k)[i], nodes[i]);
    }
  }

  /** A state with row `k`'s turn to come has the links of the rehearsal. */
  lemma AlikeBetween(first: Tree, t: Tree, rows: seq<Row>, k: nat)
    requires AsPlanned(first, rows) && Others(t, rows, k) && Untouched(first, t, rows)
    requires k < |rows| ==> HasNode(t, rows[k].target, rows[k].before)
    ensures LinksAlike(t, Rehearsed(first, rows, k))
  {
    var node := if k < |rows| then rows[k].before else None;
    PlannedEnsure(rows);
    ProgressShows(t, rows, k, node);
    ReplayShows(first, rows, k, node);
    ShowAlike(first, t, Rehearsed(first, rows, k), rows, NodesAt(rows, k, node));
  }

  lemma ReplayShows(first: Tree, rows: seq<Row>, k: nat, node: Option<Node>)
    requires AsPlanned(first, rows) && k <= |rows|
    requires node == if k < |rows| then rows[k].before else None
    ensures Shows(Rehearsed(first, rows, k), rows, NodesAt(rows, k, node))
    ensures Untouched(first, Rehearsed(first, rows, k), rows)
  {
    var r, marked := Rehearsed(first, rows, k), Marked(rows, k);
    RehearsalGoes(first, rows, k);
    MarkedSame(rows, k);
    PlannedEnsure(marked);
    ProgressShows(r, marked, k, node);
    assert NodesAt(rows, k, node) == NodesAt(marked, k, node);
    ShowsMarked(r, rows, k, NodesAt(rows, k, node));
    RehearsalKeeps(first, rows, k);
  }

  lemma PlannedEnsure(rows: seq<Row>)
    requires Planned(rows)
    ensures forall i | 0 <= i < |rows| && rows[i].ensure :: rows[i].before.None?
  {
  }

  /** One between the renames of row `k` has those of the torn rehearsal. */
  lemma AlikeTorn(first: Tree, t: Tree, rows: seq<Row>, k: nat)
    requires AsPlanned(first, rows) && k < |rows| && Others(t, rows, k) && Untouched(first, t, rows)
    requires TwoRenames(rows[k]) && HasNode(t, rows[k].target, None)
    ensures LinksAlike(t, Torn(first, rows, k))
  {
    var r, marked := Torn(first, rows, k), Marked(rows, k);
    TornGoes(first, rows, k);
    MarkedSame(rows, k);
    ProgressShows(t, rows, k, None);
    ProgressShows(r, marked, k, None);
    assert NodesAt(rows, k, None) == NodesAt(marked, k, None);
    ShowsMarked(r, rows, k, NodesAt(rows, k, None));
    ShowAlike(first, t, r, rows, NodesAt(rows, k, None));
  }

  /** One with row `k` live has those of the rehearsal one row on. */
  lemma AlikeAfter(first: Tree, t: Tree, rows: seq<Row>, k: nat)
    requires AsPlanned(first, rows) && k < |rows| && Others(t, rows, k) && Untouched(first, t, rows)
    requires if rows[k].ensure then IsDir(t, rows[k].target) else HasNode(t, rows[k].target, rows[k].after)
    ensures LinksAlike(t, Rehearsed(first, rows, k + 1))
  {
    var r, marked := Rehearsed(first, rows, k + 1), Marked(rows, k + 1);
    RehearsalGoes(first, rows, k + 1);
    MarkedSame(rows, k + 1);
    ProgressShows(t, rows, k, rows[k].after);
    RehearsedShows(r, rows, k);
    ShowsMarked(r, rows, k + 1, NodesAt(rows, k, rows[k].after));
    RehearsalKeeps(first, rows, k + 1);
    ShowAlike(first, t, r, rows, NodesAt(rows, k, rows[k].after));
  }

  lemma RehearsedShows(r: Tree, rows: seq<Row>, k: nat)
    requires k < |rows| && Progress(r, Marked(rows, k + 1), k + 1)
    ensures Shows(r, Marked(rows, k + 1), NodesAt(rows, k, rows[k].after))
  {
    var marked := Marked(rows, k + 1);
    var node := if k + 1 < |rows| then rows[k + 1].before else None;
    if k + 1 < |rows| { assert Waiting(r, marked[k + 1]); }
    ProgressShows(r, marked, k + 1, node);
    assert NodesAt(marked, k + 1, node) == NodesAt(rows, k, rows[k].after);
  }

  // ---- the points at which a process may die ----

  /** Where a publication can stand: between rows, with row `k` staged, between its two
      renames, or published and not yet cleaned up. */
  datatype Point = Between(k: nat) | Staged(k: nat) | Halfway(k: nat) | Published(k: nat)

  predicate InPlan(rows: seq<Row>, p: Point) {
    if p.Between? then p.k <= |rows|
    else p.k < |rows| && Changes(rows[p.k]) && (p.Halfway? ==> TwoRenames(rows[p.k]))
  }

  function BaseAt(t: Tree, rows: seq<Row>, p: Point): Tree
    requires InPlan(rows, p)
  {
    match p
    case Between(k) => Rehearsed(t, rows, k)
    case Staged(k) => Rehearsed(t, rows, k)
    case Halfway(k) => Torn(t, rows, k)
    case Published(k) => Rehearsed(t, rows, k + 1)
  }

  /** A workspace by any name. */
  function SomeSpace(row: Row): (ws: Path)
    requires row.target != []
    ensures ws != [] && Parent(ws) == Parent(row.target) && ws[|row.target| - 1] == Private(0)
  {
    var ws := Parent(row.target) + [Private(0)];
    assert Parent(ws) == Parent(row.target);
    ws
  }

  function Entry(name: Name, node: Option<Node>): map<Name, Node> {
    if node.Some? then map[name := node.value] else map[]
  }

  /** What the workspace holds then. */
  function NodesOf(row: Row, p: Point): map<Name, Node> {
    match p
    case Between(_) => map[]
    case Staged(_) => Entry(NEXT, row.after)
    case Halfway(_) => Entry(NEXT, row.after) + Entry(PREVIOUS, row.before)
    case Published(_) => if MovesOut(row.before, row.after) then Entry(PREVIOUS, row.before) else map[]
  }

  /** The tree at a point. */
  function TreeAt(t: Tree, rows: seq<Row>, p: Point): Tree
    requires InPlan(rows, p)
  {
    if p.Between? || rows[p.k].target == [] then BaseAt(t, rows, p)
    else Put(BaseAt(t, rows, p), SomeSpace(rows[p.k]), Some(MakeTree(Directory(OWNER_ALL, NodesOf(rows[p.k], p)))))
  }

  /** Row `j` at a point. */
  function RowAt(rows: seq<Row>, p: Point, j: nat): Row
    requires InPlan(rows, p) && j < |rows|
  {
    var row := MarkedRow(rows[j], j < p.k);
    if p.Between? || j != p.k || row.target == [] then row
    else row.(status := if p.Published? then Applied else Installing,
         work := Some(Work(SomeSpace(row), 0, row.before, row.after, false)))
  }

  predicate LegibleAt(t: Tree, rows: seq<Row>, p: Point, j: nat)
    requires InPlan(rows, p) && j < |rows|
  {
    Legible(TreeAt(t, rows, p), RowAt(rows, p, j))
  }

  predicate AllLegibleAt(t: Tree, rows: seq<Row>, p: Point)
    requires InPlan(rows, p)
  {
    forall j | 0 <= j < |rows| :: LegibleAt(t, rows, p, j)
  }

  /** A process that dies at row `k` can be taken up again, whatever it died of. */
  predicate Resumes(t: Tree, rows: seq<Row>, k: nat)
    requires k <= |rows|
  {
    && AllLegibleAt(t, rows, Between(k))
    && (k < |rows| && Changes(rows[k]) ==>
          && AllLegibleAt(t, rows, Staged(k)) && AllLegibleAt(t, rows, Published(k))
          && (TwoRenames(rows[k]) ==> AllLegibleAt(t, rows, Halfway(k))))
  }

  /** At no point where the process may die does a pending target resolve elsewhere, or a
      path that is looked at lie on a loop of links. */
  ghost predicate Steady(t: Tree, rows: seq<Row>) {
    AsPlanned(t, rows) && forall k | 0 <= k <= |rows| :: Resumes(t, rows, k)
  }

  predicate NextReads(t: Tree, row: Row) {
    row.work.Some? ==> Reads(t, row.work.value.path + [NEXT])
  }

  /** The desired node of row `k` can be read between its two renames. */
  predicate NextStays(t: Tree, rows: seq<Row>, k: nat)
    requires k < |rows|
  {
    TwoRenames(rows[k]) && rows[k].after.Some? ==> NextReads(TreeAt(t, rows, Halfway(k)), RowAt(rows, Halfway(k), k))
  }

  /** A point of a publication that is not steady where something cannot be read. */
  method Misfit(t: Tree, rows: seq<Row>) returns (p: Point)
    requires exists k | 0 <= k <= |rows| :: !Resumes(t, rows, k)
    ensures InPlan(rows, p) && !AllLegibleAt(t, rows, p)
  {
    var k :| 0 <= k <= |rows| && !Resumes(t, rows, k);
    if !AllLegibleAt(t, rows, Between(k)) { p := Between(k); }
    else if !AllLegibleAt(t, rows, Staged(k)) { p := Staged(k); }
    else if !AllLegibleAt(t, rows, Published(k)) { p := Published(k); }
    else { p := Halfway(k); }
  }

  /** The paths that an uninterrupted swap of row `k` looks at can be read. */
  predicate Swaps(t: Tree, rows: seq<Row>, k: nat)
    requires k < |rows|
  {
    Changes(rows[k]) ==> LegibleAt(t, rows, Staged(k), k) && NextStays(t, rows, k)
  }

  /** Those that cleaning up after it looks at can be. */
  predicate Cleans(t: Tree, rows: seq<Row>, k: nat)
    requires k < |rows|
  {
    Changes(rows[k]) ==>
      var row := RowAt(rows, Published(k), k); row.work.Some? ==> WorkReads(TreeAt(t, rows, Published(k)), row)
  }

  predicate Passes(t: Tree, rows: seq<Row>, k: nat)
    requires k < |rows|
  {
    Swaps(t, rows, k) && Cleans(t, rows, k)
  }

  predicate AllPass(t: Tree, rows: seq<Row>) {
    forall k | 0 <= k < |rows| :: Passes(t, rows, k)
  }

  /** Each path that an uninterrupted run looks at can be read when it does. */
  predicate Smooth(t: Tree, rows: seq<Row>) {
    AllLegibleAt(t, rows, Between(0)) && AllPass(t, rows) && AllLegibleAt(t, rows, Between(|rows|))
  }

  /** What can always be taken up again needs no second life. */
  lemma SteadyIsSmooth(t: Tree, rows: seq<Row>)
    requires Steady(t, rows)
    ensures Smooth(t, rows)
  {
    assert Resumes(t, rows, 0) && Resumes(t, rows, |rows|);
    forall k | 0 <= k < |rows| && Changes(rows[k]) ensures Passes(t, rows, k) {
      assert Resumes(t, rows, k);
      assert LegibleAt(t, rows, Published(k), k) && LegibleAt(t, rows, Staged(k), k);
      if TwoRenames(rows[k]) && rows[k].after.Some? {
        assert LegibleAt(t, rows, Halfway(k), k);
        PointStands(t, rows, Halfway(k));
        NodesAreEntries(TreeAt(t, rows, Halfway(k)), SomeSpace(rows[k]));
      }
    }
  }

  lemma NodesAreEntries(t: Tree, ws: Path)
    requires IsDir(t, ws)
    ensures NodesIn(t, ws).Keys == Lookup(t, ws).value.entries.Keys
    ensures forall n | n in NodesIn(t, ws) :: NodesIn(t, ws)[n] == PathState(Lookup(t, ws).value.entries[n])
  {
  }

  /** The workspace of a point is there, and nothing else has other links for it. */
  lemma PointStands(t: Tree, rows: seq<Row>, p: Point)
    requires AsPlanned(t, rows) && InPlan(rows, p)
    ensures LinksAlike(BaseAt(t, rows, p), TreeAt(t, rows, p))
    ensures !p.Between? ==> OwnNames(rows[p.k].target)
    ensures !p.Between? ==> IsDir(TreeAt(t, rows, p), SomeSpace(rows[p.k]))
    ensures !p.Between? ==> NodesIn(TreeAt(t, rows, p), SomeSpace(rows[p.k])) == NodesOf(rows[p.k], p)
  {
    if !p.Between? {
      BaseHome(t, rows, p);
      SpacePut(BaseAt(t, rows, p), rows[p.k], NodesOf(rows[p.k], p));
    }
  }

  lemma SpacePut(base: Tree, row: Row, nodes: map<Name, Node>)
    requires OwnNames(row.target) && IsDir(base, Parent(row.target))
    ensures var at := Put(base, SomeSpace(row), Some(MakeTree(Directory(OWNER_ALL, nodes))));
            LinksAlike(base, at) && IsDir(at, SomeSpace(row)) && NodesIn(at, SomeSpace(row)) == nodes
  {
    var ws, made := SomeSpace(row), Directory(OWNER_ALL, nodes);
    MadeIsNode(made);
    PutAt(base, ws, Some(MakeTree(made)));
    forall q | OwnNames(q) ensures LinkText(base, q) == LinkText(Put(base, ws, Some(MakeTree(made))), q) {
      PrivateApart(row, ws, q);
      PutKeepsLink(base, ws, Some(MakeTree(made)), q);
    }
  }

  lemma BaseHome(t: Tree, rows: seq<Row>, p: Point)
    requires AsPlanned(t, rows) && InPlan(rows, p) && !p.Between?
    ensures OwnNames(rows[p.k].target) && IsDir(BaseAt(t, rows, p), Parent(rows[p.k].target))
  {
    var k := p.k;
    RehearsedHome(t, rows, k);
    RehearsedNext(t, rows, k);
    PutAt(Rehearsed(t, rows, k), rows[k].target, None);
    PutAt(Rehearsed(t, rows, k), rows[k].target, Made(rows[k].after));
  }

  lemma RehearsedHome(t: Tree, rows: seq<Row>, k: nat)
    requires AsPlanned(t, rows) && k < |rows| && Changes(rows[k])
    ensures OwnNames(rows[k].target) && IsDir(Rehearsed(t, rows, k), Parent(rows[k].target))
  {
    RehearsalGoes(t, rows, k);
    MarkedNext(rows, k);
    assert OwnNames(Marked(rows, k)[k].target);
    HomeIsThere(Rehearsed(t, rows, k), Marked(rows, k), k);
  }

  lemma PutKeepsLink(t: Tree, p: Path, o: Option<Tree>, q: Path)
    requires p != [] && IsDir(t, Parent(p)) && !(p <= q)
    ensures LinkText(Put(t, p, o), q) == LinkText(t, q)
  {
    if q < p { PutBeneath(t, p, o, q); } else { PutApart(t, p, o, q); }
  }

  // ---- a run that stands at a point has its links ----

  function StageAt(p: Point): Stage {
    if p.Halfway? then Displaced else if p.Published? then Swapped else Ready
  }

  /** A run that stands at this very point. */
  ghost predicate StandsAt(t: Tree, rows: seq<Row>, p: Point) {
    && InPlan(rows, p) && Others(t, rows, p.k)
    && (p.Between? && p.k < |rows| ==> Waiting(t, rows[p.k]))
    && (!p.Between? ==> OwnWork(rows[p.k]) && !rows[p.k].work.value.cleaning && AtWork(t, rows[p.k], StageAt(p)))
    && (!p.Between? ==> if p.Published? then !rows[p.k].status.Pending? else rows[p.k].status.Installing?)
  }

  ghost predicate AtWork(t: Tree, row: Row, stage: Stage)
    requires row.work.Some?
  {
    IsDir(t, row.work.value.path) && AtStage(t, row, Lookup(t, row.work.value.path).value.entries, stage)
  }

  lemma WorkNodes(t: Tree, row: Row, p: Point)
    requires OwnWork(row) && AtWork(t, row, StageAt(p)) && !p.Between?
    ensures NodesIn(t, row.work.value.path) == NodesOf(row, p)
  {
    var entries, nodes := Lookup(t, row.work.value.path).value.entries, NodesIn(t, row.work.value.path);
    assert nodes.Keys == entries.Keys <= {NEXT, PREVIOUS};
    assert NEXT in entries ==> nodes[NEXT] == PathState(entries[NEXT]);
    assert PREVIOUS in entries ==> nodes[PREVIOUS] == PathState(entries[PREVIOUS]);
  }

  lemma LinksAtPoint(first: Tree, t: Tree, rows: seq<Row>, p: Point)
    requires AsPlanned(first, rows) && Untouched(first, t, rows) && StandsAt(t, rows, p)
    ensures LinksAlike(t, TreeAt(first, rows, p))
  {
    PointStands(first, rows, p);
    match p
    case Between(k) => AlikeBetween(first, t, rows, k);
    case Staged(k) => AlikeBetween(first, t, rows, k);
    case Halfway(k) => AlikeTorn(first, t, rows, k);
    case Published(k) => AlikeAfter(first, t, rows, k);
  }

  lemma ReadsAlike(a: Tree, b: Tree, p: Path)
    requires LinksAlike(a, b) && OwnNames(p)
    ensures Resolve(a, p) == Resolve(b, p)
  {
    assert AllNamed(p);
    ResolveAlike(a, b, p);
  }

  /** What its workspace holds can be read or not as at the point. */
  lemma WorkAtPoint(first: Tree, t: Tree, rows: seq<Row>, p: Point, n: Name)
    requires AsPlanned(first, rows) && Untouched(first, t, rows) && StandsAt(t, rows, p) && !p.Between?
    requires OwnName(n)
    ensures Reads(t, rows[p.k].work.value.path + [n]) <==> Reads(TreeAt(first, rows, p), SomeSpace(rows[p.k]) + [n])
  {
    var row, at := rows[p.k], TreeAt(first, rows, p);
    LinksAtPoint(first, t, rows, p);
    PointStands(first, rows, p);
    WorkNodes(t, row, p);
    OrdinaryHome(row);
    WorkMirrored(t, at, row.work.value.path, SomeSpace(row), n);
  }

  lemma OrdinaryHome(row: Row)
    requires OwnNames(row.target)
    ensures Ordinary(Parent(row.target)) && forall k | 0 <= k < |row.target| :: row.target[k] != UP
  {
  }

  lemma AllWorkAtPoint(first: Tree, t: Tree, rows: seq<Row>, p: Point)
    requires AsPlanned(first, rows) && Untouched(first, t, rows) && StandsAt(t, rows, p) && !p.Between?
    ensures WorkReads(t, rows[p.k]) <==> WorkReads(TreeAt(first, rows, p), RowAt(rows, p, p.k))
  {
    PointStands(first, rows, p);
    WorkNodes(t, rows[p.k], p);
    NodesAreEntries(t, rows[p.k].work.value.path);
    NodesAreEntries(TreeAt(first, rows, p), SomeSpace(rows[p.k]));
    WorkAtPoint(first, t, rows, p, NEXT);
    WorkAtPoint(first, t, rows, p, PREVIOUS);
    WorkByName(t, rows[p.k], NodesOf(rows[p.k], p).Keys);
    WorkByName(TreeAt(first, rows, p), RowAt(rows, p, p.k), NodesOf(rows[p.k], p).Keys);
  }

  lemma WorkByName(t: Tree, row: Row, names: set<Name>)
    requires row.work.Some? && !row.work.value.cleaning && names <= {NEXT, PREVIOUS}
    requires IsDir(t, row.work.value.path) && Lookup(t, row.work.value.path).value.entries.Keys == names
    ensures WorkReads(t, row) <==> (NEXT in names ==> Reads(t, row.work.value.path + [NEXT]))
                                   && (PREVIOUS in names ==> Reads(t, row.work.value.path + [PREVIOUS]))
  {
  }

  /** A row is legible where a run stands exactly if it is at the point. */
  lemma LegibleAtPoint(first: Tree, t: Tree, rows: seq<Row>, p: Point, j: nat)
    requires AsPlanned(first, rows) && Untouched(first, t, rows) && StandsAt(t, rows, p) && j < |rows|
    ensures Legible(t, rows[j]) <==> LegibleAt(first, rows, p, j)
  {
    assert OwnNames(rows[j].target);
    LinksAtPoint(first, t, rows, p);
    ReadsAlike(t, TreeAt(first, rows, p), rows[j].target);
    if j == p.k && !p.Between? {
      LegibleInHand(first, t, rows, p);
    } else {
      assert j < p.k ==> Settled(t, rows[j]);
      assert j > p.k ==> Waiting(t, rows[j]);
      LegibleAlike(t, rows[j], TreeAt(first, rows, p), RowAt(rows, p, j));
    }
  }

  lemma LegibleInHand(first: Tree, t: Tree, rows: seq<Row>, p: Point)
    requires AsPlanned(first, rows) && Untouched(first, t, rows) && StandsAt(t, rows, p) && !p.Between?
    requires Resolve(t, rows[p.k].target) == Resolve(TreeAt(first, rows, p), rows[p.k].target)
    ensures Legible(t, rows[p.k]) <==> LegibleAt(first, rows, p, p.k)
  {
    var row := rows[p.k];
    assert OwnNames(row.target);
    AllWorkAtPoint(first, t, rows, p);
    if row.ensure && p.Published? { DirectoryReads(t, row.target); }
    LegibleAlike(t, row, TreeAt(first, rows, p), RowAt(rows, p, p.k));
  }

  lemma LegibleAlike(a: Tree, x: Row, b: Tree, y: Row)
    requires x.target == y.target && x.resolved == y.resolved && x.ensure == y.ensure
    requires Resolve(a, x.target) == Resolve(b, y.target)
    requires x.work.Some? == y.work.Some? && (x.work.Some? ==> (WorkReads(a, x) <==> WorkReads(b, y)))
    requires x.status == y.status || (!x.status.Pending? && !y.status.Pending? && (x.ensure ==> Reads(a, x.target)))
    ensures Legible(a, x) <==> Legible(b, y)
  {
  }

  lemma DirectoryReads(t: Tree, p: Path)
    requires OwnNames(p) && IsDir(t, p)
    ensures Reads(t, p)
  {
    FoundThroughDirectories(t, p, Parent(p));
    RedirectedBy(t, p);
    ResolvesToItself(t, p);
  }

  lemma AllLegibleAtPoint(first: Tree, t: Tree, rows: seq<Row>, p: Point)
    requires AsPlanned(first, rows) && Untouched(first, t, rows) && StandsAt(t, rows, p)
    ensures AllLegible(t, rows) <==> AllLegibleAt(first, rows, p)
  {
    forall j | 0 <= j < |rows| ensures Legible(t, rows[j]) <==> LegibleAt(first, rows, p, j) {
      LegibleAtPoint(first, t, rows, p, j);
    }
  }

  // ---- a steady publication can always be taken up again ----

  /** In every recoverable state of a steady publication, each check passes. */
  lemma SteadyHolds(first: Tree, t: Tree, rows: seq<Row>, k: nat)
    requires Steady(first, rows) && Progress(t, rows, k) && Untouched(first, t, rows)
    ensures AllLegible(t, rows)
  {
    assert Resumes(first, rows, k);
    if k == |rows| || Waiting(t, rows[k]) {
      AllLegibleAtPoint(first, t, rows, Between(k));
    } else if InWork(t, rows[k]) {
      var p := PointOf(t, rows, k);
      AllLegibleAtPoint(first, t, rows, p);
    } else {
      EndingHolds(first, t, rows, k);
    }
  }

  /** The point at which a row in work stands. */
  lemma PointOf(t: Tree, rows: seq<Row>, k: nat) returns (p: Point)
    requires Others(t, rows, k) && k < |rows| && InWork(t, rows[k])
    ensures p.k == k && !p.Between? && StandsAt(t, rows, p)
  {
    var stage :| AtStage(t, rows[k], Lookup(t, rows[k].work.value.path).value.entries, stage);
    p := match stage case Ready => Staged(k) case Displaced => Halfway(k) case Swapped => Published(k);
  }

  lemma EndingHolds(first: Tree, t: Tree, rows: seq<Row>, k: nat)
    requires Steady(first, rows) && Untouched(first, t, rows)
    requires k < |rows| && Others(t, rows, k) && Ending(t, rows[k])
    ensures AllLegible(t, rows)
  {
    assert Resumes(first, rows, k) && OwnNames(rows[k].target);
    EndingLinks(first, t, rows, k);
    forall j | 0 <= j < |rows| ensures Legible(t, rows[j]) {
      assert LegibleAt(first, rows, Published(k), j) && OwnNames(rows[j].target);
      ReadsAlike(t, TreeAt(first, rows, Published(k)), rows[j].target);
      if j < k {
        assert Settled(t, rows[j]);
      } else if j > k {
        assert Waiting(t, rows[j]);
      } else {
        EndingReads(first, t, rows, k);
      }
    }
  }

  /** What deletion has left of a workspace can be read where all of it can. */
  lemma EndingReads(first: Tree, t: Tree, rows: seq<Row>, k: nat)
    requires AsPlanned(first, rows) && Untouched(first, t, rows)
    requires k < |rows| && Others(t, rows, k) && Ending(t, rows[k])
    requires LegibleAt(first, rows, Published(k), k)
    ensures WorkReads(t, rows[k])
  {
    var row := rows[k];
    var ws := row.work.value.path;
    assert OwnNames(row.target);
    SpaceReads(t, row);
    if IsDir(t, ws) {
      forall n | n in Lookup(t, ws).value.entries ensures Reads(t, ws + [n]) {
        assert n == PREVIOUS;
        LookupSplit(t, ws, [n]);
        if LinkText(t, ws + [n]).None? {
          WorkPath(row);
          EntryReads(t, ws, n);
        } else {
          LeftLinkReads(first, t, rows, k);
        }
      }
    }
  }

  lemma WorkPath(row: Row)
    requires OwnNames(row.target) && OwnWork(row)
    ensures forall k | 0 <= k < |row.work.value.path| :: row.work.value.path[k] != UP
  {
    var ws := row.work.value.path;
    forall k | 0 <= k < |ws| ensures ws[k] != UP {
      assert k < |ws| - 1 ==> ws[k] == Parent(ws)[k] == row.target[k];
    }
  }

  /** A workspace, there or deleted, is at no link's end. */
  lemma SpaceReads(t: Tree, row: Row)
    requires OwnNames(row.target) && Ending(t, row)
    ensures Reads(t, row.work.value.path)
  {
    var ws := row.work.value.path;
    WorkPath(row);
    RedirectedBy(t, ws);
    ResolvesToItself(t, ws);
  }

  /** The original, a link, is all that the workspace held. */
  lemma LeftLink(t: Tree, row: Row)
    requires Ending(t, row) && IsDir(t, row.work.value.path)
    requires LinkText(t, row.work.value.path + [PREVIOUS]).Some?
    ensures row.before.Some? && MovesOut(row.before, row.after)
    ensures NodesIn(t, row.work.value.path) == map[PREVIOUS := row.before.value]
  {
    var ws := row.work.value.path;
    var entries := Lookup(t, ws).value.entries;
    LookupSplit(t, ws, [PREVIOUS]);
    NodesAreEntries(t, ws);
    assert Allowed(row.work.value, PREVIOUS, entries[PREVIOUS]) && PathState(entries[PREVIOUS]).Symlink?;
  }

  lemma PreviousReads(t: Tree, rows: seq<Row>, k: nat)
    requires AsPlanned(t, rows) && k < |rows| && TwoRenames(rows[k]) && LegibleAt(t, rows, Published(k), k)
    ensures rows[k].target != [] && Reads(TreeAt(t, rows, Published(k)), SomeSpace(rows[k]) + [PREVIOUS])
  {
    PointStands(t, rows, Published(k));
    NodesAreEntries(TreeAt(t, rows, Published(k)), SomeSpace(rows[k]));
    assert PREVIOUS in NodesOf(rows[k], Published(k));
  }

  lemma LeftLinkReads(first: Tree, t: Tree, rows: seq<Row>, k: nat)
    requires AsPlanned(first, rows) && Untouched(first, t, rows)
    requires k < |rows| && Others(t, rows, k) && Ending(t, rows[k]) && LegibleAt(first, rows, Published(k), k)
    requires IsDir(t, rows[k].work.value.path)
    requires LinkText(t, rows[k].work.value.path + [PREVIOUS]).Some?
    ensures Reads(t, rows[k].work.value.path + [PREVIOUS])
  {
    var row := rows[k];
    LeftLink(t, row);
    PreviousReads(first, rows, k);
    EndingLinks(first, t, rows, k);
    OrdinaryHome(row);
    WorkMirrored(t, TreeAt(first, rows, Published(k)), row.work.value.path, SomeSpace(row), PREVIOUS);
  }

  lemma EndingLinks(first: Tree, t: Tree, rows: seq<Row>, k: nat)
    requires AsPlanned(first, rows) && Untouched(first, t, rows)
    requires k < |rows| && Others(t, rows, k) && Ending(t, rows[k])
    ensures InPlan(rows, Published(k)) && OwnNames(rows[k].target) && LinksAlike(t, TreeAt(first, rows, Published(k)))
    ensures IsDir(TreeAt(first, rows, Published(k)), SomeSpace(rows[k]))
    ensures NodesIn(TreeAt(first, rows, Published(k)), SomeSpace(rows[k])) == NodesOf(rows[k], Published(k))
  {
    PointStands(first, rows, Published(k));
    AlikeAfter(first, t, rows, k);
  }

  /** It is the plan that is steady or smooth, however far it has got. */
  lemma SteadyPlan(first: Tree, rows: seq<Row>, next: seq<Row>)
    requires SamePlan(rows, next)
    ensures AsPlanned(first, rows) <==> AsPlanned(first, next)
    ensures Steady(first, rows) <==> Steady(first, next)
  {
    MarkedPlan(rows, next);
    assert forall i | 0 <= i < |rows| :: SameContract(rows[i], next[i]);
    forall k | 0 <= k <= |rows| ensures Resumes(first, rows, k) <==> Resumes(first, next, k) {
      ResumesPlan(first, rows, next, k);
    }
  }

  lemma ResumesPlan(first: Tree, rows: seq<Row>, next: seq<Row>, k: nat)
    requires SamePlan(rows, next) && k <= |rows|
    ensures Resumes(first, rows, k) <==> Resumes(first, next, k)
  {
    assert k < |rows| ==> SameContract(rows[k], next[k]);
    AllLegiblePlan(first, rows, next, Between(k));
    if k < |rows| && Changes(rows[k]) {
      AllLegiblePlan(first, rows, next, Staged(k));
      AllLegiblePlan(first, rows, next, Published(k));
      if TwoRenames(rows[k]) { AllLegiblePlan(first, rows, next, Halfway(k)); }
    }
  }

  lemma AllLegiblePlan(first: Tree, rows: seq<Row>, next: seq<Row>, p: Point)
    requires SamePlan(rows, next) && InPlan(rows, p)
    ensures InPlan(next, p) && (AllLegibleAt(first, rows, p) <==> AllLegibleAt(first, next, p))
  {
    PointPlan(first, rows, next, p);
    assert forall j | 0 <= j < |rows| :: LegibleAt(first, rows, p, j) == LegibleAt(first, next, p, j);
  }

  lemma PointPlan(first: Tree, rows: seq<Row>, next: seq<Row>, p: Point)
    requires SamePlan(rows, next) && InPlan(rows, p)
    ensures InPlan(next, p) && TreeAt(first, rows, p) == TreeAt(first, next, p)
    ensures forall j | 0 <= j < |rows| :: RowAt(rows, p, j) == RowAt(next, p, j)
  {
    assert forall i | 0 <= i < |rows| :: SameContract(rows[i], next[i]);
    RehearsedPlan(first, rows, next, p.k);
    if p.Published? { RehearsedPlan(first, rows, next, p.k + 1); }
  }

  lemma {:induction false} RehearsedPlan(first: Tree, rows: seq<Row>, next: seq<Row>, k: nat)
    requires SamePlan(rows, next) && k <= |rows|
    ensures Rehearsed(first, rows, k) == Rehearsed(first, next, k)
    decreases k
  {
    if k > 0 {
      assert SameContract(rows[k - 1], next[k - 1]);
      RehearsedPlan(first, rows, next, k - 1);
    }
  }

  lemma MarkedPlan(rows: seq<Row>, next: seq<Row>)
    requires SamePlan(rows, next)
    ensures Marked(rows, 0) == Marked(next, 0)
  {
    assert forall i | 0 <= i < |rows| :: SameContract(rows[i], next[i]);
  }

  // ---- what a run that stands at a point learns of its plan ----

  /** All its rows can be read where they can at the point of the plan. */
  lemma PlanLegible(first: Tree, t: Tree, planned: seq<Row>, rows: seq<Row>, p: Point)
    requires AsPlanned(first, planned) && SamePlan(planned, rows) && Untouched(first, t, rows) && StandsAt(t, rows, p)
    ensures InPlan(planned, p) && (AllLegible(t, rows) <==> AllLegibleAt(first, planned, p))
  {
    SteadyPlan(first, planned, rows);
    assert forall i | 0 <= i < |rows| :: SameContract(planned[i], rows[i]);
    AllLegiblePlan(first, planned, rows, p);
    AllLegibleAtPoint(first, t, rows, p);
  }

  /** So can the row in hand. */
  lemma PlanRowLegible(first: Tree, t: Tree, planned: seq<Row>, rows: seq<Row>, p: Point)
    requires AsPlanned(first, planned) && SamePlan(planned, rows) && Untouched(first, t, rows) && StandsAt(t, rows, p)
    requires p.k < |rows|
    ensures InPlan(planned, p) && (Legible(t, rows[p.k]) <==> LegibleAt(first, planned, p, p.k))
  {
    SteadyPlan(first, planned, rows);
    assert SameContract(planned[p.k], rows[p.k]);
    PointPlan(first, planned, rows, p);
    LegibleAtPoint(first, t, rows, p, p.k);
  }

  /** A target that cannot be read when its turn comes cannot be once its row is staged. */
  lemma PlanUnreadable(first: Tree, t: Tree, planned: seq<Row>, rows: seq<Row>, k: nat)
    requires AsPlanned(first, planned) && SamePlan(planned, rows) && Untouched(first, t, rows)
    requires StandsAt(t, rows, Between(k)) && k < |rows| && Changes(rows[k]) && !Reads(t, rows[k].target)
    ensures !Swaps(first, planned, k)
  {
    SteadyPlan(first, planned, rows);
    assert SameContract(planned[k], rows[k]) && OwnNames(rows[k].target);
    LinksAtPoint(first, t, rows, Between(k));
    PointStands(first, rows, Staged(k));
    PointPlan(first, planned, rows, Staged(k));
    ReadsAlike(t, TreeAt(first, rows, Staged(k)), rows[k].target);
  }

  /** The desired node, between the renames. */
  lemma PlanNext(first: Tree, t: Tree, planned: seq<Row>, rows: seq<Row>, k: nat)
    requires AsPlanned(first, planned) && SamePlan(planned, rows) && Untouched(first, t, rows)
    requires StandsAt(t, rows, Halfway(k))
    ensures InPlan(planned, Halfway(k)) && rows[k].work.Some?
    ensures NextReads(t, rows[k]) <==> NextReads(TreeAt(first, planned, Halfway(k)), RowAt(planned, Halfway(k), k))
  {
    SteadyPlan(first, planned, rows);
    assert SameContract(planned[k], rows[k]) && OwnNames(rows[k].target);
    PointPlan(first, planned, rows, Halfway(k));
    WorkAtPoint(first, t, rows, Halfway(k), NEXT);
  }

  /** The workspace, when it is to be cleaned up. */
  lemma PlanCleans(first: Tree, t: Tree, planned: seq<Row>, rows: seq<Row>, k: nat)
    requires AsPlanned(first, planned) && SamePlan(planned, rows) && Untouched(first, t, rows)
    requires StandsAt(t, rows, Published(k))
    ensures InPlan(planned, Published(k)) && (WorkReads(t, rows[k]) <==> Cleans(first, planned, k))
  {
    SteadyPlan(first, planned, rows);
    assert SameContract(planned[k], rows[k]) && OwnNames(rows[k].target);
    PointPlan(first, planned, rows, Published(k));
    AllWorkAtPoint(first, t, rows, Published(k));
  }

  // ---- a simpler condition ----

  /** No changed output but its own lies on the way that row `j`'s target resolves. */
  ghost predicate Unpassed(t: Tree, rows: seq<Row>, j: nat)
    requires j < |rows|
  {
    forall i, q | 0 <= i < |rows| && i != j && Changes(rows[i]) && q in AskedFor(t, rows[j].target) :: !(rows[i].target <= q)
  }

  predicate IsLink(o: Option<Node>) {
    o.Some? && o.value.Symlink?
  }

  predicate ChangesNoLink(row: Row) {
    Changes(row) ==> !IsLink(row.before) && !IsLink(row.after)
  }

  lemma {:induction false} UnpassedKeepsLinks(t: Tree, rows: seq<Row>, k: nat, j: nat, q: Path)
    requires AsPlanned(t, rows) && k <= |rows| && j < |rows| && (k <= j || !Changes(rows[j]))
    requires Unpassed(t, rows, j) && q in AskedFor(t, rows[j].target)
    ensures LinkText(Rehearsed(t, rows, k), q) == LinkText(t, q)
    decreases k
  {
    if k > 0 {
      UnpassedKeepsLinks(t, rows, k - 1, j, q);
      if Changes(rows[k - 1]) {
        RehearsedHome(t, rows, k - 1);
        PutKeepsLink(Rehearsed(t, rows, k - 1), rows[k - 1].target, Made(rows[k - 1].after), q);
      }
    }
  }

  /** A target not yet changed resolves as it did. */
  lemma UnpassedKeepsPath(t: Tree, rows: seq<Row>, p: Point, j: nat)
    requires AsPlanned(t, rows) && InPlan(rows, p) && j < |rows| && Unpassed(t, rows, j) && SamePath(t, rows[j])
    requires !Changes(rows[j]) || p.k < j || (p.k == j && (p.Between? || p.Staged?))
    ensures SamePath(BaseAt(t, rows, p), rows[j])
  {
    forall q | q in AskedFor(t, rows[j].target) ensures LinkText(BaseAt(t, rows, p), q) == LinkText(t, q) {
      UnpassedKeepsLinks(t, rows, if p.Published? then p.k + 1 else p.k, j, q);
      if p.Halfway? {
        RehearsedHome(t, rows, p.k);
        PutKeepsLink(Rehearsed(t, rows, p.k), rows[p.k].target, None, q);
      }
    }
    WalkByAsked(t, BaseAt(t, rows, p), [], rows[j].target, DEPTH);
  }

  /** What is no link, among directories, can be read. */
  lemma NodeReads(t: Tree, p: Path, node: Option<Node>)
    requires OwnNames(p) && HasNode(t, p, node) && !IsLink(node)
    ensures Reads(t, p)
  {
    RedirectedBy(t, p);
    ResolvesToItself(t, p);
  }

  lemma SettledReads(t: Tree, row: Row)
    requires OwnNames(row.target) && Settled(t, row) && (row.ensure || !IsLink(row.after))
    ensures Reads(t, row.target)
  {
    if row.ensure { DirectoryReads(t, row.target); } else { NodeReads(t, row.target, row.after); }
  }

  /** A target already changed is no link. */
  lemma ChangedReads(t: Tree, rows: seq<Row>, p: Point, j: nat)
    requires AsPlanned(t, rows) && InPlan(rows, p) && j < |rows| && Changes(rows[j]) && ChangesNoLink(rows[j])
    requires j < p.k || (j == p.k && (p.Halfway? || p.Published?))
    ensures OwnNames(rows[j].target) && Reads(BaseAt(t, rows, p), rows[j].target)
  {
    var k := if p.Published? then p.k + 1 else p.k;
    RehearsalGoes(t, rows, k);
    assert OwnNames(Marked(rows, k)[j].target);
    if p.Halfway? { TornGoes(t, rows, k); }
    if j < k {
      assert Settled(BaseAt(t, rows, p), Marked(rows, k)[j]);
      SettledReads(BaseAt(t, rows, p), Marked(rows, k)[j]);
    } else {
      NodeReads(BaseAt(t, rows, p), rows[j].target, None);
    }
  }

  lemma NodeEntryReads(t: Tree, home: Path, n: Name)
    requires IsDir(t, home) && (forall k | 0 <= k < |home| :: home[k] != UP) && n != UP
    requires n in NodesIn(t, home) && !NodesIn(t, home)[n].Symlink?
    ensures Reads(t, home + [n])
  {
    NodesAreEntries(t, home);
    LookupSplit(t, home, [n]);
    EntryReads(t, home, n);
  }

  lemma LinklessWorkReads(t: Tree, rows: seq<Row>, p: Point)
    requires AsPlanned(t, rows) && InPlan(rows, p) && !p.Between? && ChangesNoLink(rows[p.k])
    ensures OwnNames(rows[p.k].target) && WorkReads(TreeAt(t, rows, p), RowAt(rows, p, p.k))
  {
    PointStands(t, rows, p);
    var at, ws := TreeAt(t, rows, p), SomeSpace(rows[p.k]);
    NodesAreEntries(at, ws);
    OrdinaryHome(rows[p.k]);
    assert forall i | 0 <= i < |ws| - 1 :: ws[i] == Parent(ws)[i];
    forall n | n in Lookup(at, ws).value.entries ensures Reads(at, ws + [n]) {
      assert n in NodesOf(rows[p.k], p) && !NodesOf(rows[p.k], p)[n].Symlink?;
      NodeEntryReads(at, ws, n);
    }
  }

  /** Row `j` changes no link, and its target resolves by way of no other changed output. */
  ghost predicate OnItsOwn(t: Tree, rows: seq<Row>, j: nat)
    requires j < |rows|
  {
    SamePath(t, rows[j]) && Unpassed(t, rows, j) && ChangesNoLink(rows[j])
  }

  lemma UnpassedIsLegible(t: Tree, rows: seq<Row>, p: Point, j: nat)
    requires AsPlanned(t, rows) && InPlan(rows, p) && j < |rows| && OnItsOwn(t, rows, j)
    ensures LegibleAt(t, rows, p, j)
  {
    assert OwnNames(Marked(rows, 0)[j].target);
    PointStands(t, rows, p);
    ReadsAlike(BaseAt(t, rows, p), TreeAt(t, rows, p), rows[j].target);
    if !Changes(rows[j]) || p.k < j || (p.k == j && (p.Between? || p.Staged?)) {
      UnpassedKeepsPath(t, rows, p, j);
    } else {
      ChangedReads(t, rows, p, j);
    }
    if !p.Between? && j == p.k { LinklessWorkReads(t, rows, p); }
  }

  lemma UnpassedAtPoint(t: Tree, rows: seq<Row>, p: Point)
    requires AsPlanned(t, rows) && InPlan(rows, p)
    requires forall j | 0 <= j < |rows| :: OnItsOwn(t, rows, j)
    ensures AllLegibleAt(t, rows, p)
  {
    forall j | 0 <= j < |rows| ensures LegibleAt(t, rows, p, j) { UnpassedIsLegible(t, rows, p, j); }
  }

  /** A publication is steady when it changes no link, and no output resolves by way of
      another that it changes. */
  lemma UnpassedIsSteady(t: Tree, rows: seq<Row>)
    requires AsPlanned(t, rows)
    requires forall j | 0 <= j < |rows| :: OnItsOwn(t, rows, j)
    ensures Steady(t, rows)
  {
    forall k | 0 <= k <= |rows| ensures Resumes(t, rows, k) {
      UnpassedAtPoint(t, rows, Between(k));
      if k < |rows| && Changes(rows[k]) {
        UnpassedAtPoint(t, rows, Staged(k));
        UnpassedAtPoint(t, rows, Published(k));
        if TwoRenames(rows[k]) { UnpassedAtPoint(t, rows, Halfway(k)); }
      }
    }
  }

  // ---- two links, the second one by way of the first ----

  const V := Named("v")
  const W := Named("w")
  const A := Named("a")
  const B := Named("b")

  /** Two directories, a link to somewhere, and a link to that link. */
  function Linked(text: string): Tree {
    var empty := Dir(DIRECTORY_MODE, 1, map[]);
    Dir(DIRECTORY_MODE, 0, map[V := empty, W := empty, A := Link(text), B := Link("/a")])
  }

  /** The first link, to the first directory, is to lead to `text`, and the second to the
      second directory. */
  function Relinked(text: string): seq<Row> {
    [Row([A], [V], Some(Symlink("/v")), Some(Symlink(text)), false, Pending, None, None),
     Row([B], [V], Some(Symlink("/a")), Some(Symlink("/w")), false, Pending, None, None)]
  }

  lemma OnePart(c: char)
    requires c != '/' && c != '.'
    ensures PartsOf(['/', c]) == [Named([c])]
  {
    assert ['/', c][1..] == [c] && ['/', c][..0] == [];
    assert [c][1..] == [] && [c][..1] == [c];
    assert UpToSlash([c]) == 1;
    assert PartsOf([c]) == [Named([c])];
  }

  lemma LinkedLooks(text: string)
    ensures LinkText(Linked(text), [A]) == Some(text) && LinkText(Linked(text), [B]) == Some("/a")
    ensures LinkText(Linked(text), [V]) == None && LinkText(Linked(text), [W]) == None
  {
    var t := Linked(text);
    forall n | n in t.entries ensures Lookup(t, [n]) == Some(t.entries[n]) {
      assert [n][1..] == [] && Lookup(t.entries[n], []) == Some(t.entries[n]);
    }
    assert A != B && A != V && A != W && B != V && B != W && V != W;
  }

  /** Through a link to one name at the top. */
  lemma OneLink(t: Tree, n: Name, c: char, depth: nat)
    requires c != '/' && c != '.' && n != UP && LinkText(t, [n]) == Some(['/', c])
    ensures Walk(t, [], [n], depth) == if depth == 0 then None else Walk(t, [], [Named([c])], depth - 1)
  {
    OnePart(c);
    assert [n][1..] == [] && [] + [n] == [n];
    if depth > 0 {
      var there := Walk(t, [], [Named([c])], depth - 1);
      assert there.Some? ==> Walk(t, there.value, [], depth) == there;
    }
  }

  lemma OneName(t: Tree, n: Name, depth: nat)
    requires n != UP && LinkText(t, [n]).None?
    ensures Walk(t, [], [n], depth) == Some([n])
  {
    assert [n][1..] == [] && [] + [n] == [n];
    assert Walk(t, [n], [], depth) == Some([n]);
  }

  lemma LinkedResolves(c: char)
    requires c == 'v' || c == 'w'
    ensures Resolve(Linked(['/', c]), [A]) == Some([Named([c])]) && Resolve(Linked(['/', c]), [B]) == Some([Named([c])])
  {
    var t := Linked(['/', c]);
    LinkedLooks(['/', c]);
    assert "/a" == ['/', 'a'] && "a" == ['a'] && "v" == ['v'] && "w" == ['w'];
    forall d: nat ensures Walk(t, [], [Named([c])], d) == Some([Named([c])]) {
      OneName(t, Named([c]), d);
    }
    OneLink(t, A, c, DEPTH);
    OneLink(t, A, c, DEPTH - 1);
    OneLink(t, B, 'a', DEPTH);
  }

  lemma {:induction false} Loops(t: Tree, depth: nat)
    requires LinkText(t, [A]) == Some(['/', 'b']) && LinkText(t, [B]) == Some(['/', 'a'])
    ensures Walk(t, [], [A], depth) == None && Walk(t, [], [B], depth) == None
    decreases depth
  {
    assert "a" == ['a'] && "b" == ['b'];
    OneLink(t, A, 'b', depth);
    OneLink(t, B, 'a', depth);
    if depth > 0 { Loops(t, depth - 1); }
  }

  lemma LinkedLoops()
    ensures Resolve(Linked("/b"), [A]) == None && Resolve(Linked("/b"), [B]) == None
  {
    LinkedLooks("/b");
    assert "/a" == ['/', 'a'] && "/b" == ['/', 'b'];
    Loops(Linked("/b"), DEPTH);
  }

  /** A staged link to the second directory can be read. */
  lemma StagedLinkReads(t: Tree, rows: seq<Row>, k: nat)
    requires AsPlanned(t, rows) && k < |rows| && Changes(rows[k]) && rows[k].after == Some(Symlink("/w"))
    requires LinkText(Rehearsed(t, rows, k), [W]).None?
    ensures rows[k].target != [] && WorkReads(TreeAt(t, rows, Staged(k)), RowAt(rows, Staged(k), k))
  {
    PointStands(t, rows, Staged(k));
    var at, ws := TreeAt(t, rows, Staged(k)), SomeSpace(rows[k]);
    NodesAreEntries(at, ws);
    assert NodesIn(at, ws) == map[NEXT := Symlink("/w")];
    OrdinaryHome(rows[k]);
    assert forall i | 0 <= i < |ws| - 1 :: ws[i] == Parent(ws)[i];
    assert OwnNames([W]) && LinkText(at, [W]).None?;
    LinkInReads(at, ws);
  }

  lemma LinkInReads(t: Tree, home: Path)
    requires IsDir(t, home) && NodesIn(t, home) == map[NEXT := Symlink("/w")]
    requires LinkText(t, [W]).None? && forall i | 0 <= i < |home| :: home[i] != UP
    ensures Reads(t, home + [NEXT])
  {
    LookupSplit(t, home, [NEXT]);
    NodesAreEntries(t, home);
    assert LinkText(t, home + [NEXT]) == Some("/w");
    ResolvesFrom(t, home, NEXT);
    assert "/w" == ['/', 'w'] && "w" == ['w'];
    OnePart('w');
    OneName(t, W, DEPTH - 1);
    assert [NEXT][1..] == [];
    assert Walk(t, [W], [], DEPTH) == Some([W]);
  }

  /** Row `k` replaces a link, at its turn readable, by one to the second directory. */
  ghost predicate LinksToW(t: Tree, rows: seq<Row>, k: nat)
    requires k < |rows|
  {
    && Changes(rows[k]) && rows[k].after == Some(Symlink("/w")) && !TwoRenames(rows[k])
    && Reads(Rehearsed(t, rows, k), rows[k].target) && LinkText(Rehearsed(t, rows, k), [W]).None?
  }

  lemma StagedLinksPass(t: Tree, rows: seq<Row>)
    requires AsPlanned(t, rows) && forall k | 0 <= k < |rows| :: LinksToW(t, rows, k)
    ensures AllPass(t, rows)
  {
    forall k | 0 <= k < |rows| ensures Passes(t, rows, k) {
      assert LinksToW(t, rows, k);
      StagedLinkReads(t, rows, k);
      PointStands(t, rows, Staged(k));
      ReadsAlike(Rehearsed(t, rows, k), TreeAt(t, rows, Staged(k)), rows[k].target);
      PointStands(t, rows, Published(k));
      NodesAreEntries(TreeAt(t, rows, Published(k)), SomeSpace(rows[k]));
    }
  }

  lemma RelinkedPasses()
    ensures AllPass(Linked("/v"), Relinked("/w"))
  {
    var t, rows := Linked("/v"), Relinked("/w");
    RelinkedStarts("/w");
    FirstLinksToW(t, rows);
    SecondLinksToW(t, rows);
    StagedLinksPass(t, rows);
  }

  lemma FirstLinksToW(t: Tree, rows: seq<Row>)
    requires t == Linked("/v") && rows == Relinked("/w")
    ensures LinksToW(t, rows, 0)
  {
    LinkedFacts("/v", 'v');
    RelinkedChanges(rows);
    assert Rehearsed(t, rows, 0) == t;
  }

  lemma SecondLinksToW(t: Tree, rows: seq<Row>)
    requires t == Linked("/v") && rows == Relinked("/w")
    ensures LinksToW(t, rows, 1)
  {
    LinkedFacts("/w", 'w');
    RelinkedChanges(rows);
    RelinkedOnce("/w");
  }

  lemma RelinkedChanges(rows: seq<Row>)
    requires rows == Relinked("/w")
    ensures Changes(rows[0]) && Changes(rows[1]) && !TwoRenames(rows[0]) && !TwoRenames(rows[1])
    ensures rows[0].target == [A] && rows[1].target == [B]
  {
    assert "/v"[1] != "/w"[1] && "/a"[1] != "/w"[1];
  }

  lemma LinkedFacts(text: string, c: char)
    requires text == ['/', c] && (c == 'v' || c == 'w')
    ensures Reads(Linked(text), [A]) && Reads(Linked(text), [B]) && LinkText(Linked(text), [W]).None?
  {
    LinkedResolves(c);
    LinkedLooks(text);
  }

  lemma RelinkedEnds()
    ensures AllLegibleAt(Linked("/v"), Relinked("/w"), Between(2))
  {
    var t, rows := Linked("/v"), Relinked("/w");
    RelinkedOnce("/w");
    RehearsedNext(t, rows, 1);
    RelinkedChanges(rows);
    LinkedFacts("/w", 'w');
    LinkedLooks("/w");
    assert "/w" == ['/', 'w'] && "w" == ['w'];
    BothLink(Linked("/w"));
    assert Rehearsed(t, rows, 2) == Put(Linked("/w"), [B], Some(Link(['/', 'w'])));
  }

  lemma BothLink(t: Tree)
    requires t.Dir? && LinkText(t, [A]) == Some(['/', 'w']) && LinkText(t, [W]) == None
    ensures var end := Put(t, [B], Some(Link(['/', 'w']))); Reads(end, [A]) && Reads(end, [B])
  {
    var end := Put(t, [B], Some(Link(['/', 'w'])));
    assert "w" == ['w'] && [W][0] != [B][0] && [A][0] != [B][0] && Parent([B]) == [];
    PutKeepsLink(t, [B], Some(Link(['/', 'w'])), [A]);
    PutKeepsLink(t, [B], Some(Link(['/', 'w'])), [W]);
    PutAt(t, [B], Some(Link(['/', 'w'])));
    OneLink(end, A, 'w', DEPTH);
    OneLink(end, B, 'w', DEPTH);
    OneName(end, W, DEPTH - 1);
  }

  /** An ordinary publication that a run without a crash completes, and that is not steady:
      once the first link is replaced, the second, still pending, resolves elsewhere, though
      nobody touched it. */
  lemma RelinkedIsNotSteady()
    ensures var t, rows := Linked("/v"), Relinked("/w");
            && AsPlanned(t, rows) && AllLegible(t, rows) && Smooth(t, rows) && !Steady(t, rows)
            && Rehearsed(t, rows, 1) == Linked("/w")
  {
    var t, rows := Linked("/v"), Relinked("/w");
    RelinkedStarts("/w");
    RelinkedOnce("/w");
    RelinkedPasses();
    RelinkedBegins("/w");
    RelinkedEnds();
    RelinkedMoves();
    assert !LegibleAt(t, rows, Between(1), 1);
    assert !Resumes(t, rows, 1);
  }

  lemma RelinkedBegins(text: string)
    ensures AllLegible(Linked("/v"), Relinked(text)) && AllLegibleAt(Linked("/v"), Relinked(text), Between(0))
  {
    LinkedResolves('v');
    assert "/v" == ['/', 'v'] && "v" == ['v'];
    assert Rehearsed(Linked("/v"), Relinked(text), 0) == Linked("/v");
  }

  lemma RelinkedMoves()
    ensures Resolve(Linked("/w"), [B]) == Some([W]) && V != W
  {
    LinkedResolves('w');
    assert "/w" == ['/', 'w'] && "v" == ['v'] && "w" == ['w'];
  }

  /** One that not even an uninterrupted run completes: once the first link is replaced,
      the two lead to each other. */
  lemma FlippedIsNotSmooth()
    ensures var t, rows := Linked("/v"), Relinked("/b");
            && AsPlanned(t, rows) && AllLegible(t, rows) && !Smooth(t, rows) && !Steady(t, rows)
            && Rehearsed(t, rows, 1) == Linked("/b") && Resolve(Linked("/b"), [B]) == None
  {
    var t, rows := Linked("/v"), Relinked("/b");
    LinkedLoops();
    RelinkedBegins("/b");
    RelinkedStarts("/b");
    RelinkedOnce("/b");
    PointStands(t, rows, Staged(1));
    ReadsAlike(Linked("/b"), TreeAt(t, rows, Staged(1)), [B]);
    assert !Swaps(t, rows, 1) && !Passes(t, rows, 1);
    if Steady(t, rows) { SteadyIsSmooth(t, rows); }
  }

  lemma RelinkedOnce(text: string)
    ensures text != "/v" ==> Rehearsed(Linked("/v"), Relinked(text), 1) == Linked(text)
  {
    var t, rows := Linked("/v"), Relinked(text);
    assert Rehearsed(t, rows, 0) == t;
    if text != "/v" {
      assert Rehearsed(t, rows, 1) == Put(t, [A], Some(Link(text)));
      assert Put(t, [A], Some(Link(text))).entries == Linked(text).entries;
    }
  }

  lemma RelinkedStarts(text: string)
    ensures AsPlanned(Linked("/v"), Relinked(text))
  {
    var t, rows := Linked("/v"), Marked(Relinked(text), 0);
    assert |rows| == 2 && rows[0] == Relinked(text)[0] && rows[1] == Relinked(text)[1];
    LinkedStands();
    RelinkedIsPlanned(text, rows);
    assert Parent([A]) == [] && Parent([B]) == [] && IsDir(t, []);
    assert Waiting(t, rows[0]) && Waiting(t, rows[1]);
    assert HasHome(t, rows, 0) && HasHome(t, rows, 1);
  }

  lemma LinkedStands()
    ensures var t := Linked("/v");
            && State(Lookup(t, [A])) == Some(Symlink("/v")) && State(Lookup(t, [B])) == Some(Symlink("/a"))
            && !Redirected(t, [A]) && !Redirected(t, [B])
  {
    var t := Linked("/v");
    forall n | n in t.entries ensures Lookup(t, [n]) == Some(t.entries[n]) && !Redirected(t, [n]) {
      assert [n][1..] == [] && Lookup(t.entries[n], []) == Some(t.entries[n]);
    }
    assert A != B && A != V && A != W && B != V && B != W && V != W;
  }

  lemma RelinkedIsPlanned(text: string, rows: seq<Row>)
    requires |rows| == 2 && rows[0] == Relinked(text)[0] && rows[1] == Relinked(text)[1]
    ensures Planned(rows)
  {
    assert [A][0] != [B][0];
    assert !([A] <= [B]) && !([B] <= [A]);
  }
}
