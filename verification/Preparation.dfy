/** From a frozen plan to journal rows and backups: `prepare_publication`. */
module Preparation {
  import opened Common
  import opened Trees
  import opened OwnedTrees
  import opened TextOrder
  import opened ConfigPlan
  import opened Resolution
  import opened PublicationRows
  import opened Rehearsal
  import P = Publication

  ghost function Desired(after: After): Option<Node> {
    match after
    case FileOutput(mode, digest) => Some(Node.File(mode, digest))
    case LinkOutput(target) => Some(Node.Symlink(target))
    case Removed => None
    case EnsuredDirectory(mode) => Some(Node.Directory(mode, map[]))
    case OwnedTree(mode, files) => Unflatten(mode, files)
  }

  /** `_desired`, for every kind of output. */
  method MakeDesired(after: After) returns (node: Option<Node>)
    requires WellFormed(after)
    ensures node == Desired(after) && (node.None? <==> after.Removed?)
    ensures after.OwnedTree? ==> Represents(node.value, after.treeMode, after.files)
  {
    DesiredTells(after);
    match after
    case FileOutput(mode, digest) => node := Some(Node.File(mode, digest));
    case LinkOutput(target) => node := Some(Node.Symlink(target));
    case Removed => node := None;
    case EnsuredDirectory(mode) => node := Some(Node.Directory(mode, map[]));
    case OwnedTree(mode, files) =>
      node := BuildDirectory(mode, files);
  }

  /** What a desired node says: only a removal has none, and an owned tree's flattens back
      to exactly its files. */
  lemma DesiredTells(after: After)
    requires WellFormed(after)
    ensures Desired(after).None? <==> after.Removed?
    ensures after.OwnedTree? ==> Represents(Desired(after).value, after.treeMode, after.files)
  {
    if after.OwnedTree? { UnflattenRepresents(after.treeMode, after.files); }
  }

  predicate EmptyTree(after: After) {
    after.OwnedTree? && after.files == map[]
  }

  /** The node tells the output: two outputs with the same node are the same, but for an
      ensured directory and an owned tree without files. */
  lemma DesiredIsFaithful(a: After, b: After)
    requires WellFormed(a) && WellFormed(b)
    ensures Desired(a) == Desired(b) <==>
            a == b || (a.EnsuredDirectory? && EmptyTree(b)) || (EmptyTree(a) && b.EnsuredDirectory?)
  {
    DesiredTells(a);
    DesiredTells(b);
    if a.OwnedTree? { TreeTells(a); }
    if b.OwnedTree? { TreeTells(b); }
    if a.OwnedTree? && b.OwnedTree? && Desired(a) == Desired(b) {
      var node := Desired(a).value;
      forall q ensures (q in a.files) == (q in b.files) && (q in a.files ==> a.files[q] == b.files[q]) {
        assert FileAt(node, q) == if q in a.files then Some(a.files[q]) else None;
        assert FileAt(node, q) == if q in b.files then Some(b.files[q]) else None;
      }
      assert a.files == b.files;
    }
  }

  lemma TreeTells(after: After)
    requires WellFormed(after) && after.OwnedTree?
    ensures Desired(after).Some? && Desired(after).value.Directory?
    ensures Desired(after).value == EmptyDirectory() <==> after.files == map[]
  {
    DesiredTells(after);
    var node := Desired(after).value;
    if node == EmptyDirectory() {
      forall q ensures q !in after.files { assert FileAt(node, q) == None; }
    }
    if after.files == map[] {
      forall q ensures FileAt(node, q) == FileAt(EmptyDirectory(), q) { }
      LeanUnique(node, EmptyDirectory());
    }
  }

  // ---- backups ----

  /** Every file of the node can be read back from these bytes. */
  predicate Backed(node: Node, bytes: map<Digest, Bytes>) {
    match node
    case File(_, digest) => digest in bytes
    case Symlink(_) => true
    case Directory(_, entries) => forall n | n in entries :: Backed(entries[n], bytes)
  }

  lemma {:induction false} BackedByMore(node: Node, bytes: map<Digest, Bytes>, more: map<Digest, Bytes>)
    requires Backed(node, bytes) && bytes.Keys <= more.Keys
    ensures Backed(node, more)
    decreases node
  {
    if node.Directory? {
      forall n | n in node.entries ensures Backed(node.entries[n], more) {
        BackedByMore(node.entries[n], bytes, more);
      }
    }
  }

  predicate Sealed(bytes: map<Digest, Bytes>) {
    forall d | d in bytes :: Sha256(bytes[d]) == d
  }

  /** `_backup`: keeps the bytes the staged set does not already hold. */
  method Backup(tree: Tree, path: Path, node: Node, staged: map<Digest, Bytes>, contents: map<Digest, Bytes>)
    returns (kept: Option<map<Digest, Bytes>>)
    requires Sealed(staged) && Sealed(contents)
    ensures State(Lookup(tree, path)) == Some(node) ==> kept.Some?
    ensures kept.Some? ==> Sealed(kept.value) && contents.Keys <= kept.value.Keys && Backed(node, staged + kept.value)
    ensures kept.Some? ==> kept.value.Keys - contents.Keys !! staged.Keys
    decreases node
  {
    match node
    case Symlink(_) => kept := Some(contents);
    case File(_, digest) =>
      if digest in staged { return Some(contents); }
      var found := Lookup(tree, path);
      if found.None? || !found.value.Reg? || Sha256(found.value.content) != digest { return None; }
      kept := Some(contents[digest := found.value.content]);
    case Directory(_, entries) =>
      var all := contents;
      var todo := entries.Keys;
      while todo != {}
        invariant todo <= entries.Keys && Sealed(all) && contents.Keys <= all.Keys
        invariant all.Keys - contents.Keys !! staged.Keys
        invariant forall n | n in entries && n !in todo :: Backed(entries[n], staged + all)
        decreases todo
      {
        var n :| n in todo;
        LookupSplit(tree, path, [n]);
        var more := Backup(tree, path + [n], entries[n], staged, all);
        if more.None? { return None; }
        forall m | m in entries && m !in todo ensures Backed(entries[m], staged + more.value) {
          BackedByMore(entries[m], staged + all, staged + more.value);
        }
        all := more.value;
        todo := todo - {n};
      }
      kept := Some(all);
  }

  // ---- rows ----

  function RowOf(target: Path, resolved: Path, before: Option<Node>, after: Option<Node>, ensure: bool): Row {
    Row(target, resolved, before, after, ensure, Pending, None, None)
  }

  /** A missing directory as it is found. */
  function FoundParent(tree: Tree, parent: Path): Row {
    var resolved := Resolve(tree, parent);
    RowOf(parent, if resolved.Some? then resolved.value else parent, State(Lookup(tree, parent)), Some(EmptyDirectory()), true)
  }

  /** `exists()`, which follows a link to nothing. */
  predicate Exists(tree: Tree, p: Path) {
    Lookup(tree, p).Some? && !Lookup(tree, p).value.Link?
  }

  ghost function ChangeRow(c: Change): Row {
    RowOf(c.target, c.resolved, c.before, Desired(c.after), c.after.EnsuredDirectory?)
  }

  ghost predicate Changed(c: Change) {
    c.before != Desired(c.after)
  }

  /** A missing directory that some changed output needs. */
  ghost predicate MissingParent(tree: Tree, changes: seq<Change>, n: nat, p: Path)
    requires n <= |changes|
  {
    p != [] && !Exists(tree, p) && exists c | 0 <= c < n :: Changed(changes[c]) && p < changes[c].target
  }

  /** The rows of the first `n` changes: one for each, and one for each
      missing directory above a changed one. */
  ghost predicate RowsOf(tree: Tree, changes: seq<Change>, n: nat, rows: map<Path, Row>)
    requires n <= |changes|
  {
    && ChangeRows(changes, n, rows)
    && (forall p | p in rows :: Owned(changes, n, p) || ForParent(tree, changes, n, rows, p))
    && forall p | MissingParent(tree, changes, n, p) :: p in rows
  }

  ghost predicate ChangeRows(changes: seq<Change>, n: nat, rows: map<Path, Row>)
    requires n <= |changes|
  {
    forall c | 0 <= c < n :: changes[c].target in rows && rows[changes[c].target] == ChangeRow(changes[c])
  }

  ghost predicate Owned(changes: seq<Change>, n: nat, p: Path)
    requires n <= |changes|
  {
    exists c | 0 <= c < n :: changes[c].target == p
  }

  ghost predicate ForParent(tree: Tree, changes: seq<Change>, n: nat, rows: map<Path, Row>, p: Path)
    requires n <= |changes| && p in rows
  {
    MissingParent(tree, changes, n, p) && rows[p] == FoundParent(tree, p)
  }

  /** The plan still describes the tree, and none of it is protected. */
  ghost predicate Publishable(tree: Tree, plan: Plan, reserved: seq<Path>) {
    && (forall i | 0 <= i < |plan.changes| :: Fresh(tree, plan.changes[i]))
    && AllAllowed(plan.changes, |plan.changes|, reserved)
  }

  ghost predicate AllAllowed(changes: seq<Change>, n: nat, reserved: seq<Path>)
    requires n <= |changes|
  {
    forall i | 0 <= i < n :: Allows(changes[i], reserved)
  }

  predicate Allows(c: Change, reserved: seq<Path>) {
    !Protected(c.target, reserved) && (c.after.EnsuredDirectory? ==> c.before == None)
  }

  predicate Protected(target: Path, reserved: seq<Path>) {
    exists k | 0 <= k < |reserved| :: reserved[k] <= target || target <= reserved[k]
  }

  ghost predicate AllBacked(changes: seq<Change>, n: nat, bytes: map<Digest, Bytes>)
    requires n <= |changes|
  {
    forall i | 0 <= i < n && Changed(changes[i]) && changes[i].before.Some? :: Backed(changes[i].before.value, bytes)
  }

  /** The loop over missing parents; existing rows keep their place. */
  method EnsureParents(tree: Tree, target: Path, rows: map<Path, Row>) returns (next: Option<map<Path, Row>>)
    requires tree.Dir? && target != []
    ensures next.Some? <==> !Blocked(tree, target)
    ensures next.Some? ==> forall p :: p in next.value <==> p in rows || (p < target && p != [] && !Exists(tree, p))
    ensures next.Some? ==> forall p | p in next.value :: next.value[p] == if p in rows then rows[p] else FoundParent(tree, p)
  {
    var all := rows;
    var parent := Parent(target);
    while parent != [] && !Exists(tree, parent)
      invariant parent < target
      invariant forall p :: p in all <==> p in rows || Between(parent, p, target)
      invariant forall p | p in all :: all[p] == if p in rows then rows[p] else FoundParent(tree, p)
      invariant forall p | Between(parent, p, target) :: !Exists(tree, p)
      decreases |parent|
    {
      BetweenParent(parent, target);
      if parent !in all {
        all := all[parent := FoundParent(tree, parent)];
      }
      parent := Parent(parent);
    }
    assert Lookup(tree, []) == Some(tree);
    forall p | p < target && p != [] && !Exists(tree, p) ensures Between(parent, p, target) {
      assert p == target[..|p|] && parent == target[..|parent|];
      if p < parent { FoundThroughDirectories(tree, parent, p); }
    }
    NearestAncestor(tree, target, parent);
    if !IsDir(tree, parent) { return None; }
    next := Some(all);
  }

  predicate Between(a: Path, p: Path, b: Path) {
    a < p && p < b
  }

  lemma BetweenParent(a: Path, b: Path)
    requires a != [] && a < b
    ensures forall p :: Between(Parent(a), p, b) <==> p == a || Between(a, p, b)
  {
    forall p | Between(Parent(a), p, b) ensures p == a || a < p {
      assert p == b[..|p|] && a == b[..|a|];
    }
  }

  lemma FirstStep(tree: Tree, p: Path)
    requires tree.Dir? && p != []
    ensures Lookup(tree, p[..1]) == if p[0] in tree.entries then Some(tree.entries[p[0]]) else None
  {
    if p[0] in tree.entries { assert Lookup(tree.entries[p[0]], []) == Some(tree.entries[p[0]]); }
  }

  /** The first existing ancestor is a directory exactly when no file is in the way. */
  lemma {:induction false} NearestAncestor(tree: Tree, target: Path, parent: Path)
    requires parent < target && Exists(tree, parent)
    requires forall p | Between(parent, p, target) :: !Exists(tree, p)
    ensures IsDir(tree, parent) <==> !Blocked(tree, target)
    decreases |target|
  {
    if parent != [] {
      assert parent[0] == target[0] && parent[1..] < target[1..];
      var child := tree.entries[parent[0]];
      forall p | Between(parent[1..], p, target[1..]) ensures !Exists(child, p) {
        var full := [parent[0]] + p;
        assert full[1..] == p && parent == [parent[0]] + parent[1..] && target == [target[0]] + target[1..];
        assert Between(parent, full, target);
        assert !Exists(tree, full);
      }
      NearestAncestor(child, target[1..], parent[1..]);
    } else if tree.Dir? && |target| > 1 {
      FirstStep(tree, target);
      assert Between([], target[..1], target);
      assert !Exists(tree, target[..1]);
    }
  }

  /** One change of `_prepare_rows`: its row, its missing parents and its backups. */
  method PrepareRow(tree: Tree, plan: Plan, n: nat, reserved: seq<Path>, rows: map<Path, Row>, blobs: map<Digest, Bytes>)
    returns (next: Option<map<Path, Row>>, kept: map<Digest, Bytes>)
    requires tree.Dir? && Frozen(plan) && n < |plan.changes| && Fresh(tree, plan.changes[n])
    requires Sealed(blobs) && blobs.Keys !! plan.staged.Keys
    requires RowsOf(tree, plan.changes, n, rows)
    ensures next.Some? <==> Allows(plan.changes[n], reserved)
    ensures next.Some? ==> RowsOf(tree, plan.changes, n + 1, next.value)
    ensures Sealed(kept) && kept.Keys !! plan.staged.Keys && blobs.Keys <= kept.Keys
    ensures next.Some? && Changed(plan.changes[n]) && plan.changes[n].before.Some? ==>
              Backed(plan.changes[n].before.value, plan.staged + kept)
  {
    var c := plan.changes[n];
    kept := blobs;
    if Protected(c.target, reserved) { return None, kept; }
    var after := MakeDesired(c.after);
    var wider := rows;
    if c.before != after {
      var ensured := EnsureParents(tree, c.target, rows);
      wider := ensured.value;
    }
    RowsExtend(tree, plan, n, rows, wider);
    wider := wider[c.target := RowOf(c.target, c.resolved, c.before, after, c.after.EnsuredDirectory?)];
    if c.after.EnsuredDirectory? && c.before.Some? { return None, kept; }
    if c.before != after && c.before.Some? {
      var more := Backup(tree, c.target, c.before.value, plan.staged, blobs);
      kept := more.value;
    }
    next := Some(wider);
  }

  /** `_prepare_rows`: rows and backups, or a refusal. */
  method PrepareRows(tree: Tree, plan: Plan, reserved: seq<Path>)
    returns (rows: Option<map<Path, Row>>, blobs: map<Digest, Bytes>)
    requires tree.Dir? && Frozen(plan)
    requires forall i | 0 <= i < |plan.changes| :: Fresh(tree, plan.changes[i])
    ensures rows.Some? <==> Publishable(tree, plan, reserved)
    ensures rows.Some? ==> RowsOf(tree, plan.changes, |plan.changes|, rows.value)
    ensures Sealed(blobs) && blobs.Keys !! plan.staged.Keys
    ensures rows.Some? ==> AllBacked(plan.changes, |plan.changes|, plan.staged + blobs)
  {
    var all: map<Path, Row> := map[];
    blobs := map[];
    for n := 0 to |plan.changes|
      invariant Sealed(blobs) && blobs.Keys !! plan.staged.Keys
      invariant RowsOf(tree, plan.changes, n, all)
      invariant AllBacked(plan.changes, n, plan.staged + blobs)
      invariant AllAllowed(plan.changes, n, reserved)
    {
      var next, kept := PrepareRow(tree, plan, n, reserved, all, blobs);
      if next.None? { return None, blobs; }
      BackedEarlier(plan.changes, n, plan.staged + blobs, plan.staged + kept);
      all, blobs := next.value, kept;
    }
    rows := Some(all);
  }

  lemma BackedEarlier(changes: seq<Change>, n: nat, bytes: map<Digest, Bytes>, more: map<Digest, Bytes>)
    requires n <= |changes| && bytes.Keys <= more.Keys && AllBacked(changes, n, bytes)
    ensures AllBacked(changes, n, more)
  {
    forall i | 0 <= i < n && Changed(changes[i]) && changes[i].before.Some?
      ensures Backed(changes[i].before.value, more)
    {
      BackedByMore(changes[i].before.value, bytes, more);
    }
  }

  /** What the parent loop leaves for change `n`. */
  ghost predicate Widened(tree: Tree, c: Change, rows: map<Path, Row>, wider: map<Path, Row>) {
    if Changed(c) then
      && (forall p :: p in wider <==> p in rows || (p < c.target && p != [] && !Exists(tree, p)))
      && forall p | p in wider :: wider[p] == if p in rows then rows[p] else FoundParent(tree, p)
    else wider == rows
  }

  lemma RowsExtend(tree: Tree, plan: Plan, n: nat, rows: map<Path, Row>, wider: map<Path, Row>)
    requires Frozen(plan) && n < |plan.changes| && RowsOf(tree, plan.changes, n, rows)
    requires Widened(tree, plan.changes[n], rows, wider)
    ensures RowsOf(tree, plan.changes, n + 1, wider[plan.changes[n].target := ChangeRow(plan.changes[n])])
  {
    var next := wider[plan.changes[n].target := ChangeRow(plan.changes[n])];
    ChangeRowsExtend(tree, plan, n, rows, wider);
    forall p | p in next ensures Owned(plan.changes, n + 1, p) || ForParent(tree, plan.changes, n + 1, next, p) {
      RowOrigin(tree, plan.changes, n, rows, wider, next, p);
    }
    forall p | MissingParent(tree, plan.changes, n + 1, p) ensures p in next {
      MissingLess(tree, plan.changes, n, p);
    }
  }

  lemma ChangeRowsExtend(tree: Tree, plan: Plan, n: nat, rows: map<Path, Row>, wider: map<Path, Row>)
    requires Frozen(plan) && n < |plan.changes| && ChangeRows(plan.changes, n, rows)
    requires Widened(tree, plan.changes[n], rows, wider)
    ensures ChangeRows(plan.changes, n + 1, wider[plan.changes[n].target := ChangeRow(plan.changes[n])])
  {
  }

  lemma RowOrigin(tree: Tree, changes: seq<Change>, n: nat, rows: map<Path, Row>, wider: map<Path, Row>,
                  next: map<Path, Row>, p: Path)
    requires n < |changes| && RowsOf(tree, changes, n, rows)
    requires Widened(tree, changes[n], rows, wider)
    requires next == wider[changes[n].target := ChangeRow(changes[n])] && p in next
    ensures Owned(changes, n + 1, p) || ForParent(tree, changes, n + 1, next, p)
  {
    if p == changes[n].target {
    } else if p in rows {
      if Owned(changes, n, p) {
        var i :| 0 <= i < n && changes[i].target == p;
        assert 0 <= i < n + 1;
      } else {
        MissingMore(tree, changes, n, p);
      }
    } else {
      assert Changed(changes[n]) && p < changes[n].target;
    }
  }

  lemma MissingLess(tree: Tree, changes: seq<Change>, n: nat, p: Path)
    requires n < |changes| && MissingParent(tree, changes, n + 1, p)
    ensures MissingParent(tree, changes, n, p) || (Changed(changes[n]) && p < changes[n].target)
  {
    var i :| 0 <= i < n + 1 && Changed(changes[i]) && p < changes[i].target;
    if i < n { assert Changed(changes[i]) && p < changes[i].target; }
  }

  lemma MissingMore(tree: Tree, changes: seq<Change>, n: nat, p: Path)
    requires n < |changes| && MissingParent(tree, changes, n, p)
    ensures MissingParent(tree, changes, n + 1, p)
  {
    var i :| 0 <= i < n && Changed(changes[i]) && p < changes[i].target;
    assert Changed(changes[i]) && p < changes[i].target;
  }

  // ---- the prepared journal is one the publisher can take to its end ----

  lemma {:induction false} LeanMakeable(node: Node, store: map<Digest, Bytes>)
    requires LeanChild(node)
    requires forall q | FileAt(node, q).Some? ::
               (forall k | 0 <= k < |q| :: ValidPart(q[k])) && FileAt(node, q).value.digest in store
    ensures P.Makeable(node, store)
    decreases node
  {
    if node.Directory? {
      forall n | n in node.entries ensures P.ChildName(n) && P.Makeable(node.entries[n], store) {
        LeanChildMakeable(node, n, store);
        LeanMakeable(node.entries[n], store);
      }
    } else {
      assert FileAt(node, []).Some?;
    }
  }

  lemma LeanChildMakeable(node: Node, n: Name, store: map<Digest, Bytes>)
    requires node.Directory? && n in node.entries && n.Named? && LeanChild(node.entries[n])
    requires forall q | FileAt(node, q).Some? ::
               (forall k | 0 <= k < |q| :: ValidPart(q[k])) && FileAt(node, q).value.digest in store
    ensures ValidPart(n.text)
    ensures forall q | FileAt(node.entries[n], q).Some? ::
              (forall k | 0 <= k < |q| :: ValidPart(q[k])) && FileAt(node.entries[n], q).value.digest in store
  {
    var child := node.entries[n];
    var some := LeanHasFile(child);
    FileAtStep(node, n.text, some);
    assert ValidPart(([n.text] + some)[0]);
    forall q | FileAt(child, q).Some?
      ensures (forall k | 0 <= k < |q| :: ValidPart(q[k])) && FileAt(child, q).value.digest in store
    {
      FileAtStep(node, n.text, q);
      forall k | 0 <= k < |q| ensures ValidPart(q[k]) { assert ([n.text] + q)[k + 1] == q[k]; }
    }
  }

  /** Every desired node can be materialised from the staged bytes alone. */
  lemma DesiredMakeable(after: After, staged: map<Digest, Bytes>)
    requires WellFormed(after) && DigestsOf(after) <= staged.Keys
    ensures Desired(after).Some? ==> P.Makeable(Desired(after).value, staged)
  {
    if after.OwnedTree? {
      UnflattenRepresents(after.treeMode, after.files);
      var node := Desired(after).value;
      forall n | n in node.entries ensures P.ChildName(n) && P.Makeable(node.entries[n], staged) {
        forall q | FileAt(node, q).Some?
          ensures (forall k | 0 <= k < |q| :: ValidPart(q[k])) && FileAt(node, q).value.digest in staged
        {
          assert q in after.files && ValidRelative(q);
          assert after.files[q].digest in DigestsOf(after);
        }
        LeanChildMakeable(node, n, staged);
        LeanMakeable(node.entries[n], staged);
      }
    }
  }

  /** The rows in text order. */
  ghost predicate Ordered(rows: map<Path, Row>, order: seq<Path>, listed: seq<Row>) {
    && InTextOrder(order) && Distinct(order) && (forall p :: p in order <==> p in rows)
    && |listed| == |order| && forall i | 0 <= i < |order| :: order[i] in rows && listed[i] == rows[order[i]]
  }

  /** No output lies below a link that leads nowhere. */
  ghost predicate Straight(tree: Tree, changes: seq<Change>) {
    forall c | 0 <= c < |changes| :: !Dangling(tree, changes[c].target)
  }

  /** A plan a publisher can be given: frozen, fresh, unprotected, and naming no
      private workspace and nothing below a link. */
  ghost predicate Ready(tree: Tree, plan: Plan, reserved: seq<Path>) {
    && tree.Dir? && Frozen(plan) && Publishable(tree, plan, reserved) && Straight(tree, plan.changes)
    && forall i | 0 <= i < |plan.changes| :: OwnNames(plan.changes[i].target)
  }

  /** What is true of each prepared row by itself. */
  lemma RowFacts(tree: Tree, plan: Plan, reserved: seq<Path>, rows: map<Path, Row>, p: Path)
    requires Ready(tree, plan, reserved) && RowsOf(tree, plan.changes, |plan.changes|, rows) && p in rows
    ensures rows[p].target == p && OwnNames(p) && rows[p].status.Pending? && rows[p].work.None?
    ensures rows[p].ensure ==> rows[p].before == None && rows[p].after == Some(EmptyDirectory())
    ensures Waiting(tree, rows[p])
    ensures rows[p].after.Some? ==> P.Makeable(rows[p].after.value, plan.staged)
    ensures forall q | q < p && q != [] && rows[p].before != rows[p].after && Lookup(tree, q).None? :: q in rows && rows[q].ensure
    ensures forall q | q in rows && q < p :: rows[q].ensure
  {
    var changes, n := plan.changes, |plan.changes|;
    var top := p;
    if Owned(changes, n, p) {
      var c :| 0 <= c < n && changes[c].target == p;
      RedirectedBy(tree, p);
      assert WellFormed(changes[c].after) && Fresh(tree, changes[c]) && Allows(changes[c], reserved);
      DesiredMakeable(changes[c].after, plan.staged);
      if rows[p].before != rows[p].after { assert Changed(changes[c]); }
    } else {
      assert MissingParent(tree, changes, n, p);
      var c :| 0 <= c < n && Changed(changes[c]) && p < changes[c].target;
      top := changes[c].target;
      OwnPrefix(p, top);
      assert Fresh(tree, changes[c]);
      RedirectedBy(tree, top);
      DanglingIsBelowLink(tree, top);
      assert !LinkAt(tree, p);
      NotRedirectedAbove(tree, p, top);
    }
    forall q | q < p && q in rows ensures rows[q].ensure { EnsureAbove(tree, plan, rows, q, p); }
    forall q | q < p && q != [] && rows[p].before != rows[p].after && Lookup(tree, q).None?
      ensures q in rows && rows[q].ensure
    {
      ParentsCovered(tree, plan, rows, q, p);
      EnsureAbove(tree, plan, rows, q, p);
    }
  }

  lemma OwnPrefix(p: Path, q: Path)
    requires p != [] && p <= q && OwnNames(q)
    ensures OwnNames(p)
  {
    forall k | 0 <= k < |p| ensures p[k].Named? { assert p[k] == q[k]; }
  }

  lemma {:induction false} NotRedirectedAbove(t: Tree, p: Path, q: Path)
    requires p <= q && !Redirected(t, q)
    ensures !Redirected(t, p)
    decreases |p|
  {
    if p != [] && t.Dir? && p[0] in t.entries {
      assert p[0] == q[0] && p[1..] <= q[1..];
      NotRedirectedAbove(t.entries[p[0]], p[1..], q[1..]);
    }
  }

  lemma EnsureAbove(tree: Tree, plan: Plan, rows: map<Path, Row>, q: Path, p: Path)
    requires Frozen(plan) && RowsOf(tree, plan.changes, |plan.changes|, rows)
    requires q in rows && p in rows && q < p
    ensures rows[q].ensure
  {
    var changes, n := plan.changes, |plan.changes|;
    if Owned(changes, n, q) {
      var d :| 0 <= d < n && changes[d].target == q;
      if Owned(changes, n, p) {
        var c :| 0 <= c < n && changes[c].target == p;
        assert changes[d].target < changes[c].target;
      } else {
        var c :| 0 <= c < n && Changed(changes[c]) && p < changes[c].target;
        assert changes[d].target < changes[c].target;
      }
    }
  }

  lemma ParentsCovered(tree: Tree, plan: Plan, rows: map<Path, Row>, q: Path, p: Path)
    requires Frozen(plan) && RowsOf(tree, plan.changes, |plan.changes|, rows)
    requires p in rows && q < p && q != [] && Lookup(tree, q).None? && rows[p].before != rows[p].after
    ensures q in rows
  {
    var changes, n := plan.changes, |plan.changes|;
    var c: nat;
    if Owned(changes, n, p) {
      c :| 0 <= c < n && changes[c].target == p;
    } else {
      c :| 0 <= c < n && Changed(changes[c]) && p < changes[c].target;
    }
    assert Changed(changes[c]) && q < changes[c].target;
    assert MissingParent(tree, changes, n, q);
  }

  /** A missing parent is an ensured row that comes earlier. */
  lemma MadeHome(rows: map<Path, Row>, order: seq<Path>, listed: seq<Row>, j: nat, home: Path)
    requires Ordered(rows, order, listed) && j < |listed| && home < order[j]
    requires home in rows && rows[home].ensure && rows[home].target == home
    ensures exists i | 0 <= i < j :: listed[i].ensure && listed[i].target == home
  {
    var i :| 0 <= i < |order| && order[i] == home;
    AncestorSortsFirst(home, order[j]);
    assert i < j && listed[i].ensure && listed[i].target == home;
  }

  /** No row replaces a directory that already exists above a row. */
  lemma NotAbove(tree: Tree, plan: Plan, reserved: seq<Path>, rows: map<Path, Row>, p: Path, home: Path, q: Path)
    requires Ready(tree, plan, reserved) && RowsOf(tree, plan.changes, |plan.changes|, rows)
    requires p in rows && q in rows && home < p && Lookup(tree, home).Some?
    ensures !(q <= home)
  {
    RowFacts(tree, plan, reserved, rows, q);
    assert rows[q].ensure ==> State(Lookup(tree, q)).None?;
    if q < home {
      FoundThroughDirectories(tree, home, q);
    }
    assert home == p[..|home|];
    assert q <= home ==> q < p;
    if q < p { EnsureAbove(tree, plan, rows, q, p); }
    assert q <= home && |q| == |home| ==> q == home;
  }

  lemma RowHome(tree: Tree, plan: Plan, reserved: seq<Path>, rows: map<Path, Row>, order: seq<Path>, listed: seq<Row>, j: nat)
    requires Ready(tree, plan, reserved) && RowsOf(tree, plan.changes, |plan.changes|, rows)
    requires Ordered(rows, order, listed) && j < |listed| && listed[j].before != listed[j].after
    requires forall i | 0 <= i < |listed| :: listed[i].target == order[i] && order[i] != []
    ensures HasHome(tree, listed, j)
  {
    var p := order[j];
    var home := Parent(p);
    assert p in order;
    RowFacts(tree, plan, reserved, rows, p);
    assert Lookup(tree, []) == Some(tree);
    if Lookup(tree, home).None? {
      RowFacts(tree, plan, reserved, rows, home);
      MadeHome(rows, order, listed, j, home);
    } else {
      DanglingIsBelowLink(tree, p);
      RedirectedBy(tree, p);
      assert !LinkAt(tree, home);
      NearestAncestor(tree, p, home);
      forall i | 0 <= i < |listed| ensures !(listed[i].target <= home) {
        assert order[i] in order;
        NotAbove(tree, plan, reserved, rows, p, home, order[i]);
      }
    }
  }

  /** The prepared rows are a recoverable journal, with everything still to do. */
  lemma PreparedRecoverable(tree: Tree, plan: Plan, reserved: seq<Path>, rows: map<Path, Row>, order: seq<Path>, listed: seq<Row>)
    requires Ready(tree, plan, reserved) && RowsOf(tree, plan.changes, |plan.changes|, rows)
    requires Ordered(rows, order, listed)
    ensures Progress(tree, listed, 0) && P.Tracked(listed) && P.RowsMakeable(listed, plan.staged)
  {
    forall i | 0 <= i < |listed|
      ensures listed[i].target == order[i] && OwnNames(order[i]) && Waiting(tree, listed[i]) && listed[i].work.None?
      ensures listed[i].ensure ==> listed[i].before == None && listed[i].after == Some(EmptyDirectory())
      ensures listed[i].after.Some? ==> P.Makeable(listed[i].after.value, plan.staged)
    {
      RowFacts(tree, plan, reserved, rows, order[i]);
    }
    forall i, j | 0 <= i < |listed| && 0 <= j < |listed| && i != j && Nested(listed, i, j)
      ensures listed[i].ensure && i < j
    {
      assert order[i] != order[j] && order[i] < order[j];
      RowFacts(tree, plan, reserved, rows, order[j]);
      AncestorSortsFirst(order[i], order[j]);
    }
    forall j | 0 <= j < |listed| && listed[j].before != listed[j].after ensures HasHome(tree, listed, j) {
      RowHome(tree, plan, reserved, rows, order, listed, j);
    }
  }

  // ---- what a journal has to cover before it is resumed ----

  /** A row's target and nodes, as the coverage check compares them. */
  predicate SameOutput(a: Row, b: Row) {
    a.target == b.target && a.resolved == b.resolved && a.before == b.before && a.after == b.after
  }

  ghost predicate HasRowFor(rows: seq<Row>, c: Change) {
    exists i | 0 <= i < |rows| :: SameOutput(rows[i], ChangeRow(c))
  }

  predicate IsOutput(changes: seq<Change>, p: Path) {
    exists c | 0 <= c < |changes| :: changes[c].target == p
  }

  /** The row is a change's own or a missing parent of one. */
  predicate Justified(changes: seq<Change>, row: Row) {
    IsOutput(changes, row.target)
    || (row.ensure && row.before.None? && row.after == Some(EmptyDirectory())
        && exists c | 0 <= c < |changes| :: row.target < changes[c].target)
  }

  /** What `_publication` demands of a journal before it resumes it. */
  ghost predicate Covers(changes: seq<Change>, rows: seq<Row>) {
    && (forall i, j | 0 <= i < j < |rows| :: rows[i].target != rows[j].target)
    && (forall c | 0 <= c < |changes| :: HasRowFor(rows, changes[c]))
    && forall i | 0 <= i < |rows| :: Justified(changes, rows[i])
  }

  /** Each change's row is an ensured one exactly for an ensured directory. */
  ghost predicate Flagged(changes: seq<Change>, rows: seq<Row>) {
    forall c, i | 0 <= c < |changes| && 0 <= i < |rows| && rows[i].target == changes[c].target ::
      rows[i].ensure == changes[c].after.EnsuredDirectory?
  }

  /** The coverage check of `_publication`. */
  method CheckCoverage(changes: seq<Change>, rows: seq<Row>) returns (ok: bool)
    requires forall c | 0 <= c < |changes| :: WellFormed(changes[c].after)
    ensures ok <==> Covers(changes, rows)
  {
    if exists i, j | 0 <= i < j < |rows| :: rows[i].target == rows[j].target { return false; }
    for c := 0 to |changes|
      invariant forall d | 0 <= d < c :: HasRowFor(rows, changes[d])
    {
      var after := MakeDesired(changes[c].after);
      if !exists i | 0 <= i < |rows| ::
          rows[i].target == changes[c].target && rows[i].resolved == changes[c].resolved
          && rows[i].before == changes[c].before && rows[i].after == after
      {
        assert !HasRowFor(rows, changes[c]);
        return false;
      }
    }
    ok := forall i | 0 <= i < |rows| :: Justified(changes, rows[i]);
  }

  /** Some changed output lies below a link that leads nowhere. */
  ghost predicate BelowLink(tree: Tree, changes: seq<Change>) {
    exists c | 0 <= c < |changes| && Changed(changes[c]) :: Dangling(tree, changes[c].target)
  }

  lemma RowTarget(tree: Tree, changes: seq<Change>, rows: map<Path, Row>, p: Path)
    requires RowsOf(tree, changes, |changes|, rows) && p in rows
    ensures rows[p].target == p
  {
    if Owned(changes, |changes|, p) {
      var c :| 0 <= c < |changes| && changes[c].target == p;
    }
  }

  lemma AboveIsAbsent(tree: Tree, plan: Plan, reserved: seq<Path>, d: nat, c: nat)
    requires Frozen(plan) && Publishable(tree, plan, reserved) && d < |plan.changes| && c < |plan.changes|
    ensures plan.changes[d].target < plan.changes[c].target ==> Lookup(tree, plan.changes[d].target).None?
  {
    assert Fresh(tree, plan.changes[d]) && Allows(plan.changes[d], reserved);
  }

  /** Below a link, the journal has a row for the link itself, which no check accepts. */
  lemma LinkRowIsRefused(tree: Tree, plan: Plan, reserved: seq<Path>, rows: map<Path, Row>, order: seq<Path>, listed: seq<Row>)
    requires tree.Dir? && Frozen(plan) && Publishable(tree, plan, reserved)
    requires RowsOf(tree, plan.changes, |plan.changes|, rows) && Ordered(rows, order, listed)
    requires BelowLink(tree, plan.changes)
    ensures !Covers(plan.changes, listed)
  {
    var changes, n := plan.changes, |plan.changes|;
    var c :| 0 <= c < n && Changed(changes[c]) && Dangling(tree, changes[c].target);
    DanglingIsBelowLink(tree, changes[c].target);
    var q :| q < changes[c].target && LinkAt(tree, q);
    LinkHasRow(tree, plan, reserved, rows, c, q);
    var i :| 0 <= i < |order| && order[i] == q;
    assert !Justified(changes, listed[i]);
  }

  /** The row for a link above a changed output is no change's, and starts from the link. */
  lemma LinkHasRow(tree: Tree, plan: Plan, reserved: seq<Path>, rows: map<Path, Row>, c: nat, q: Path)
    requires tree.Dir? && Frozen(plan) && Publishable(tree, plan, reserved) && RowsOf(tree, plan.changes, |plan.changes|, rows)
    requires c < |plan.changes| && Changed(plan.changes[c]) && q < plan.changes[c].target && LinkAt(tree, q)
    ensures q in rows && rows[q].target == q && rows[q].before.Some? && !IsOutput(plan.changes, q)
  {
    var changes, n := plan.changes, |plan.changes|;
    assert q != [] by { assert Lookup(tree, []) == Some(tree); }
    assert MissingParent(tree, changes, n, q);
    forall d | 0 <= d < n ensures changes[d].target != q {
      AboveIsAbsent(tree, plan, reserved, d, c);
    }
    assert ForParent(tree, changes, n, rows, q);
  }

  lemma PreparedCovers(tree: Tree, plan: Plan, reserved: seq<Path>, rows: map<Path, Row>, order: seq<Path>, listed: seq<Row>)
    requires tree.Dir? && Frozen(plan) && Publishable(tree, plan, reserved)
    requires RowsOf(tree, plan.changes, |plan.changes|, rows) && Ordered(rows, order, listed)
    ensures Covers(plan.changes, listed) <==> !BelowLink(tree, plan.changes)
  {
    if BelowLink(tree, plan.changes) {
      LinkRowIsRefused(tree, plan, reserved, rows, order, listed);
    } else {
      StraightCovers(tree, plan, rows, order, listed);
    }
  }

  lemma StraightCovers(tree: Tree, plan: Plan, rows: map<Path, Row>, order: seq<Path>, listed: seq<Row>)
    requires RowsOf(tree, plan.changes, |plan.changes|, rows) && Ordered(rows, order, listed)
    requires !BelowLink(tree, plan.changes)
    ensures Covers(plan.changes, listed)
  {
    var changes, n := plan.changes, |plan.changes|;
    forall c | 0 <= c < n ensures HasRowFor(listed, changes[c]) {
      assert changes[c].target in order;
      var i :| 0 <= i < |order| && order[i] == changes[c].target;
      assert SameOutput(listed[i], ChangeRow(changes[c]));
    }
    forall i | 0 <= i < |listed| ensures listed[i].target == order[i] && Justified(changes, listed[i]) {
      assert order[i] in order;
      RowTarget(tree, changes, rows, order[i]);
      JustifiedRow(tree, changes, rows, order[i]);
    }
  }

  lemma JustifiedRow(tree: Tree, changes: seq<Change>, rows: map<Path, Row>, p: Path)
    requires RowsOf(tree, changes, |changes|, rows) && p in rows && !BelowLink(tree, changes)
    ensures Justified(changes, rows[p])
  {
    RowTarget(tree, changes, rows, p);
    if Owned(changes, |changes|, p) {
      var c :| 0 <= c < |changes| && changes[c].target == p;
      assert IsOutput(changes, p);
    } else {
      assert ForParent(tree, changes, |changes|, rows, p);
      var c :| 0 <= c < |changes| && Changed(changes[c]) && p < changes[c].target;
      DanglingIsBelowLink(tree, changes[c].target);
      assert !LinkAt(tree, p);
    }
  }

  lemma PreparedFlagged(tree: Tree, changes: seq<Change>, rows: map<Path, Row>, order: seq<Path>, listed: seq<Row>)
    requires RowsOf(tree, changes, |changes|, rows) && Ordered(rows, order, listed)
    ensures Flagged(changes, listed)
  {
    forall c, i | 0 <= c < |changes| && 0 <= i < |listed| && listed[i].target == changes[c].target
      ensures listed[i].ensure == changes[c].after.EnsuredDirectory?
    {
      assert order[i] in order;
      RowTarget(tree, changes, rows, order[i]);
      assert rows[changes[c].target] == ChangeRow(changes[c]);
    }
  }

  /** Every prepared row is still to do, and resolves as it says. */
  lemma PreparedResolves(tree: Tree, changes: seq<Change>, rows: map<Path, Row>, order: seq<Path>, listed: seq<Row>)
    requires RowsOf(tree, changes, |changes|, rows) && Ordered(rows, order, listed)
    requires forall c | 0 <= c < |changes| :: Fresh(tree, changes[c])
    ensures Marked(listed, 0) == listed && AllLegible(tree, listed)
  {
    forall i | 0 <= i < |listed| ensures MarkedRow(listed[i], false) == listed[i] && SamePath(tree, listed[i]) {
      assert order[i] in order;
      var p := order[i];
      if Owned(changes, |changes|, p) {
        var c :| 0 <= c < |changes| && changes[c].target == p;
        assert Fresh(tree, changes[c]) && rows[p] == ChangeRow(changes[c]);
      } else {
        assert ForParent(tree, changes, |changes|, rows, p);
        var c :| 0 <= c < |changes| && Changed(changes[c]) && p < changes[c].target;
        assert Fresh(tree, changes[c]);
        ResolvesAbove(tree, p, changes[c].target);
      }
    }
  }

  /** No progress ever changes whether a journal can be resumed. */
  lemma CoversStays(changes: seq<Change>, rows: seq<Row>, next: seq<Row>)
    requires SamePlan(rows, next)
    ensures Covers(changes, rows) <==> Covers(changes, next)
    ensures Flagged(changes, rows) <==> Flagged(changes, next)
  {
    if Covers(changes, rows) { CoversNext(changes, rows, next); }
    if Covers(changes, next) { CoversNext(changes, next, rows); }
    assert forall i | 0 <= i < |rows| :: SameContract(rows[i], next[i]);
  }

  lemma CoversNext(changes: seq<Change>, rows: seq<Row>, next: seq<Row>)
    requires Covers(changes, rows) && (SamePlan(rows, next) || SamePlan(next, rows))
    ensures Covers(changes, next)
  {
    assert forall i | 0 <= i < |rows| :: SameContract(rows[i], next[i]);
    forall c | 0 <= c < |changes| ensures HasRowFor(next, changes[c]) {
      var i :| 0 <= i < |rows| && SameOutput(rows[i], ChangeRow(changes[c]));
      assert SameOutput(next[i], ChangeRow(changes[c]));
    }
    forall i | 0 <= i < |next| ensures Justified(changes, next[i]) {
      assert Justified(changes, rows[i]);
    }
  }

  /** `prepare_publication`: nothing live changes; rows and backups are ready. A link
      that leads nowhere above a changed output is not refused here: it makes a journal
      that is never resumed. */
  method PreparePublication(tree: Tree, plan: Plan, reserved: seq<Path>)
    returns (rows: Option<seq<Row>>, blobs: map<Digest, Bytes>)
    requires tree.Dir? && Frozen(plan) && forall i | 0 <= i < |plan.changes| :: OwnNames(plan.changes[i].target)
    ensures rows.Some? <==> Publishable(tree, plan, reserved)
    ensures rows.Some? ==> (Covers(plan.changes, rows.value) <==> !BelowLink(tree, plan.changes))
    ensures rows.Some? ==> Flagged(plan.changes, rows.value)
    ensures rows.Some? && Straight(tree, plan.changes) ==> Progress(tree, rows.value, 0) && P.Tracked(rows.value)
    ensures rows.Some? ==> Marked(rows.value, 0) == rows.value && AllLegible(tree, rows.value)
    ensures rows.Some? && Straight(tree, plan.changes) ==> P.RowsMakeable(rows.value, plan.staged + blobs)
    ensures Sealed(plan.staged + blobs)
    ensures rows.Some? ==> AllBacked(plan.changes, |plan.changes|, plan.staged + blobs)
  {
    blobs := map[];
    if exists i | 0 <= i < |plan.changes| :: !Fresh(tree, plan.changes[i]) {
      return None, blobs;
    }
    var prepared, kept := PrepareRows(tree, plan, reserved);
    blobs := kept;
    if prepared.None? { return None, blobs; }
    var order := Sorted(prepared.value.Keys);
    var listed: seq<Row> := [];
    for i := 0 to |order|
      invariant |listed| == i && forall k | 0 <= k < i :: order[k] in prepared.value && listed[k] == prepared.value[order[k]]
    {
      assert order[i] in order;
      listed := listed + [prepared.value[order[i]]];
    }
    PreparedCovers(tree, plan, reserved, prepared.value, order, listed);
    PreparedFlagged(tree, plan.changes, prepared.value, order, listed);
    PreparedResolves(tree, plan.changes, prepared.value, order, listed);
    if Straight(tree, plan.changes) {
      PreparedRecoverable(tree, plan, reserved, prepared.value, order, listed);
      MakeableByMore(listed, plan.staged, plan.staged + blobs);
    }
    rows := Some(listed);
  }

  lemma MakeableByMore(rows: seq<Row>, bytes: map<Digest, Bytes>, more: map<Digest, Bytes>)
    requires P.RowsMakeable(rows, bytes) && bytes.Keys <= more.Keys
    ensures P.RowsMakeable(rows, more)
  {
    forall i | 0 <= i < |rows| && rows[i].after.Some? ensures P.Makeable(rows[i].after.value, more) {
      NodeMakeableByMore(rows[i].after.value, bytes, more);
    }
  }

  lemma {:induction false} NodeMakeableByMore(node: Node, bytes: map<Digest, Bytes>, more: map<Digest, Bytes>)
    requires P.Makeable(node, bytes) && bytes.Keys <= more.Keys
    ensures P.Makeable(node, more)
    decreases node
  {
    if node.Directory? {
      forall n | n in node.entries ensures P.ChildName(n) && P.Makeable(node.entries[n], more) {
        NodeMakeableByMore(node.entries[n], bytes, more);
      }
    }
  }

  // ---- backups are complete ----

  /** Every name in the node is one a directory entry can have. */
  predicate RealNames(node: Node) {
    node.Directory? ==> forall n | n in node.entries :: P.ChildName(n) && RealNames(node.entries[n])
  }

  lemma {:induction false} BackedMakeable(node: Node, bytes: map<Digest, Bytes>)
    requires Backed(node, bytes) && RealNames(node)
    ensures P.Makeable(node, bytes)
    decreases node
  {
    if node.Directory? {
      forall n | n in node.entries ensures P.ChildName(n) && P.Makeable(node.entries[n], bytes) {
        BackedMakeable(node.entries[n], bytes);
      }
    }
  }

  /** A backed-up node, rebuilt elsewhere from the retained bytes alone, is that node exactly. */
  method Rebuild(node: Node, bytes: map<Digest, Bytes>) returns (copy: Option<Tree>)
    requires Sealed(bytes) && Backed(node, bytes) && RealNames(node)
    ensures copy.Some? && PathState(copy.value) == node
  {
    BackedMakeable(node, bytes);
    var scratch := new P.Publisher(Dir(OWNER_ALL, 0, map[]), [], bytes, [], 1);
    var at := [Named("copy")];
    assert Parent(at) == [] && Lookup(scratch.tree, []) == Some(scratch.tree);
    var r := scratch.Materialize(at, node);
    copy := Lookup(scratch.tree, at);
  }

  // ---- the whole publication ----

  /** The node of every change is live. */
  ghost predicate Published(tree: Tree, changes: seq<Change>) {
    forall c | 0 <= c < |changes| ::
      if changes[c].after.EnsuredDirectory? then IsDir(tree, changes[c].target)
      else HasNode(tree, changes[c].target, Desired(changes[c].after))
  }

  lemma SettledIsPublished(tree: Tree, changes: seq<Change>, rows: seq<Row>)
    requires Covers(changes, rows) && Flagged(changes, rows) && P.AllSettled(tree, rows)
    ensures Published(tree, changes)
  {
    forall c | 0 <= c < |changes|
      ensures if changes[c].after.EnsuredDirectory? then IsDir(tree, changes[c].target)
              else HasNode(tree, changes[c].target, Desired(changes[c].after))
    {
      var i :| 0 <= i < |rows| && SameOutput(rows[i], ChangeRow(changes[c]));
      assert Settled(tree, rows[i]);
    }
  }

  /** A path apart from every output. */
  ghost predicate Bystander(changes: seq<Change>, q: Path) {
    OwnNames(q) && forall c | 0 <= c < |changes| :: Apart(q, changes[c].target)
  }

  /** The missing directories that are made are on the way to outputs, so no bystander is
      on or above one. */
  lemma BystanderIsElsewhere(changes: seq<Change>, rows: seq<Row>, q: Path)
    requires Covers(changes, rows) && Bystander(changes, q)
    ensures Elsewhere(rows, q)
  {
    forall i | 0 <= i < |rows| ensures Spared(q, rows[i]) {
      assert Justified(changes, rows[i]);
      if !IsOutput(changes, rows[i].target) {
        var c :| 0 <= c < |changes| && rows[i].target < changes[c].target;
        var p, target := rows[i].target, changes[c].target;
        assert Apart(q, target);
        assert q <= p ==> q <= target;
      }
    }
  }

  lemma NothingBegun(rows: seq<Row>)
    requires Marked(rows, 0) == rows
    ensures WorksOf(rows) == {} && forall i | 0 <= i < |rows| :: rows[i].status.Pending? && rows[i].work.None?
  {
    forall i | 0 <= i < |rows| ensures rows[i].status.Pending? && rows[i].work.None? {
      assert Marked(rows, 0)[i] == MarkedRow(rows[i], false);
    }
  }

  /** A plan that can be published: no change that stays as it is lies below a link. */
  ghost predicate ForPublishing(tree: Tree, plan: Plan) {
    && tree.Dir? && Frozen(plan) && (forall i | 0 <= i < |plan.changes| :: OwnNames(plan.changes[i].target))
    && forall i | 0 <= i < |plan.changes| :: !Changed(plan.changes[i]) ==> !Dangling(tree, plan.changes[i].target)
  }

  /** Prepare, and check as a process that applies would. */
  method SetUp(tree: Tree, plan: Plan, reserved: seq<Path>, inodes: nat)
    returns (rows: Option<seq<Row>>, publisher: P.Publisher?)
    requires ForPublishing(tree, plan)
    ensures rows.Some? <==> Publishable(tree, plan, reserved) && !BelowLink(tree, plan.changes)
    ensures rows.Some? ==> Covers(plan.changes, rows.value) && Flagged(plan.changes, rows.value)
    ensures rows.Some? ==>
              publisher != null && fresh(publisher) && publisher.AtRest()
              && publisher.rows == publisher.plan == rows.value && publisher.origin == publisher.tree == tree
  {
    var blobs;
    publisher := null;
    rows, blobs := PreparePublication(tree, plan, reserved);
    if rows.None? { return; }
    var covered := CheckCoverage(plan.changes, rows.value);
    if !covered { return None, null; }
    assert Straight(tree, plan.changes);
    publisher := Install(tree, rows.value, plan.staged + blobs, inodes);
  }

  /** A publisher on a prepared journal. */
  method Install(tree: Tree, rows: seq<Row>, bytes: map<Digest, Bytes>, inodes: nat) returns (publisher: P.Publisher)
    requires Sealed(bytes) && P.Tracked(rows) && P.RowsMakeable(rows, bytes)
    requires Progress(tree, rows, 0) && Marked(rows, 0) == rows && AllLegible(tree, rows)
    ensures fresh(publisher) && publisher.AtRest()
    ensures publisher.rows == publisher.plan == rows && publisher.origin == publisher.tree == tree
  {
    NothingBegun(rows);
    publisher := new P.Publisher(tree, rows, bytes, [], inodes);
    assert publisher.Safe(0);
  }

  /** Prepare, then apply through any number of crashes: every output is live, and nothing
      apart from the outputs has changed. A steady publication always gets there; without a
      crash, exactly a smooth one does. */
  method Publish(tree: Tree, plan: Plan, reserved: seq<Path>, lives: seq<nat>, inodes: nat)
    returns (live: Option<Tree>, rows: Option<seq<Row>>)
    requires ForPublishing(tree, plan)
    ensures rows.Some? <==> Publishable(tree, plan, reserved) && !BelowLink(tree, plan.changes)
    ensures rows.Some? ==> Covers(plan.changes, rows.value)
    ensures rows.None? ==> live.None?
    ensures rows.Some? && Steady(tree, rows.value) ==> live.Some?
    ensures rows.Some? && lives == [] ==> (live.Some? <==> Smooth(tree, rows.value))
    ensures live.Some? ==> Published(live.value, plan.changes)
    ensures live.Some? ==> forall q | Bystander(plan.changes, q) :: Lookup(live.value, q) == Lookup(tree, q)
  {
    var publisher;
    rows, publisher := SetUp(tree, plan, reserved, inodes);
    if rows.None? { return None, None; }
    var r := publisher.Recover(lives);
    if !r.Done? { return None, rows; }
    CoversStays(plan.changes, rows.value, publisher.rows);
    SettledIsPublished(publisher.tree, plan.changes, publisher.rows);
    live := Some(publisher.tree);
    BystandersStay(tree, live.value, plan.changes, rows.value);
  }

  lemma BystandersStay(tree: Tree, live: Tree, changes: seq<Change>, rows: seq<Row>)
    requires Covers(changes, rows) && Untouched(tree, live, rows)
    ensures forall q | Bystander(changes, q) :: Lookup(live, q) == Lookup(tree, q)
  {
    forall q | Bystander(changes, q) ensures Lookup(live, q) == Lookup(tree, q) {
      BystanderIsElsewhere(changes, rows, q);
      assert Surroundings(tree, rows)[q] == Surroundings(live, rows)[q];
    }
  }

  /** A tree and a journal of the plan that a process can leave behind, with nothing apart
      from the outputs changed, and that no later one goes on from. */
  ghost predicate DeadEnd(tree: Tree, changes: seq<Change>, rows: seq<Row>, left: Tree, journal: seq<Row>) {
    && Recoverable(left, journal) && SamePlan(rows, journal) && Covers(changes, journal) && !AllLegible(left, journal)
    && forall q | Bystander(changes, q) :: Lookup(left, q) == Lookup(tree, q)
  }

  /** Exactly a publication that is not steady can be left so. */
  method PublishUntilStranded(tree: Tree, plan: Plan, reserved: seq<Path>, inodes: nat)
    returns (left: Option<(Tree, seq<Row>)>, rows: Option<seq<Row>>)
    requires ForPublishing(tree, plan)
    ensures rows.Some? <==> Publishable(tree, plan, reserved) && !BelowLink(tree, plan.changes)
    ensures rows.None? ==> left.None?
    ensures rows.Some? ==> (left.Some? <==> !Steady(tree, rows.value))
    ensures left.Some? ==> DeadEnd(tree, plan.changes, rows.value, left.value.0, left.value.1)
  {
    var publisher;
    left := None;
    rows, publisher := SetUp(tree, plan, reserved, inodes);
    if rows.Some? && exists k | 0 <= k <= |rows.value| :: !Resumes(tree, rows.value, k) {
      var _ := publisher.Strand();
      left := Some((publisher.tree, publisher.saved.rows));
      CoversStays(plan.changes, rows.value, publisher.saved.rows);
      UntouchedPlan(tree, publisher.tree, publisher.saved.rows, rows.value);
      BystandersStay(tree, publisher.tree, plan.changes, rows.value);
    }
  }
}
