/** The append-only plan builder: outputs that may not overlap, with every
    content byte retained under its digest. */
module ConfigPlan {
  import opened Common
  import opened Trees
  import opened Resolution
  import opened OwnedTrees
  import opened TextOrder

  /** What a renderer proposes at one target. */
  datatype After =
    | FileOutput(fileMode: Mode, digest: Digest)
    | LinkOutput(target: string)
    | Removed
    | EnsuredDirectory(dirMode: Mode)
    | OwnedTree(treeMode: Mode, files: map<Relative, FileEntry>)

  datatype Change = Change(target: Path, resolved: Path, before: Option<Node>, after: After)

  /** A frozen render: its changes in target order and its staged bytes. */
  datatype Plan = Plan(changes: seq<Change>, staged: map<Digest, Bytes>)

  // ---- the text order that sorted() gives a set of paths ----

  function Text(p: Path): string {
    if p == [] then ""
    else "/" + (if p[0].Named? then p[0].text else ".claudlobby-config-") + Text(p[1..])
  }

  lemma {:induction false} TextOfExtension(p: Path, q: Path)
    ensures Text(p + q) == Text(p) + Text(q)
    decreases |p|
  {
    if p == [] {
      assert p + q == q;
    } else {
      assert (p + q)[0] == p[0] && (p + q)[1..] == p[1..] + q;
      TextOfExtension(p[1..], q);
    }
  }

  /** A directory sorts before everything below it. */
  lemma AncestorSortsFirst(p: Path, q: Path)
    requires p < q
    ensures TextLess(Text(p), Text(q))
  {
    assert q == p + q[|p|..];
    TextOfExtension(p, q[|p|..]);
    ExtensionIsGreater(Text(p), Text(q[|p|..]));
  }

  ghost predicate InTextOrder(s: seq<Path>) {
    forall i, j | 0 <= i < j < |s| :: !TextLess(Text(s[j]), Text(s[i]))
  }

  ghost predicate Distinct(s: seq<Path>) {
    forall i, j | 0 <= i < j < |s| :: s[i] != s[j]
  }

  /** sorted() of a set of paths. */
  method Sorted(keys: set<Path>) returns (s: seq<Path>)
    ensures InTextOrder(s) && Distinct(s)
    ensures forall p :: p in s <==> p in keys
  {
    s := [];
    var todo := keys;
    while todo != {}
      invariant InTextOrder(s) && Distinct(s)
      invariant todo <= keys
      invariant forall p :: p in s <==> p in keys && p !in todo
      decreases |todo|
    {
      var p :| p in todo;
      todo := todo - {p};
      s := SortInto(s, p);
    }
  }

  method SortInto(s: seq<Path>, p: Path) returns (r: seq<Path>)
    requires InTextOrder(s) && Distinct(s) && p !in s
    ensures InTextOrder(r) && Distinct(r)
    ensures forall q :: q in r <==> q in s || q == p
  {
    var at := 0;
    while at < |s| && !TextLess(Text(p), Text(s[at]))
      invariant 0 <= at <= |s|
      invariant forall i | 0 <= i < at :: !TextLess(Text(p), Text(s[i]))
    {
      at := at + 1;
    }
    r := s[..at] + [p] + s[at..];
    forall j | at <= j < |s| ensures !TextLess(Text(s[j]), Text(p)) {
      TextLessAsymmetric(Text(p), Text(s[at]));
      if at < j { TextLessTransitive(Text(p), Text(s[at]), Text(s[j])); }
    }
    InsertedSorted(s, at, p);
  }

  lemma InsertedSorted(s: seq<Path>, at: nat, p: Path)
    requires at <= |s| && InTextOrder(s) && Distinct(s) && p !in s
    requires forall i | 0 <= i < at :: !TextLess(Text(p), Text(s[i]))
    requires forall j | at <= j < |s| :: !TextLess(Text(s[j]), Text(p))
    ensures var r := s[..at] + [p] + s[at..];
            InTextOrder(r) && Distinct(r) && forall q :: q in r <==> q in s || q == p
  {
    InsertedHas(s, at, p);
    InsertedPairs(s, at, p, (a, b) => a != b && !TextLess(Text(b), Text(a)));
  }

  /** What held of every pair in order still does. */
  lemma InsertedPairs<T>(s: seq<T>, at: nat, x: T, before: (T, T) -> bool)
    requires at <= |s| && forall i, j | 0 <= i < j < |s| :: before(s[i], s[j])
    requires forall i | 0 <= i < at :: before(s[i], x)
    requires forall j | at <= j < |s| :: before(x, s[j])
    ensures var r := s[..at] + [x] + s[at..]; forall i, j | 0 <= i < j < |r| :: before(r[i], r[j])
  {
    var r := s[..at] + [x] + s[at..];
    forall i, j | 0 <= i < j < |r| ensures before(r[i], r[j]) {
      var a, b := if i < at then i else i - 1, if j < at then j else j - 1;
      assert r[i] == (if i == at then x else s[a]) && r[j] == (if j == at then x else s[b]);
    }
  }

  lemma InsertedHas(s: seq<Path>, at: nat, p: Path)
    requires at <= |s|
    ensures forall q :: q in s[..at] + [p] + s[at..] <==> q in s || q == p
  {
    assert s == s[..at] + s[at..];
  }

  // ---- the builder ----

  predicate Overlaps(target: Path, after: After, other: Path, otherAfter: After) {
    || (other <= target && !otherAfter.EnsuredDirectory?)
    || (target <= other && !after.EnsuredDirectory?)
  }

  /** Only an ensured directory has another output on or below it. */
  ghost predicate NoOverlap(changes: map<Path, Change>) {
    && (forall p | p in changes :: changes[p].target == p)
    && forall p, q | p in changes && q in changes && p < q :: changes[p].after.EnsuredDirectory?
  }

  function DigestsOf(after: After): set<Digest> {
    match after
    case FileOutput(_, digest) => {digest}
    case OwnedTree(_, files) => set p | p in files :: files[p].digest
    case _ => {}
  }

  ghost predicate Retained(changes: map<Path, Change>, contents: map<Digest, Bytes>) {
    && (forall d | d in contents :: Sha256(contents[d]) == d)
    && forall p | p in changes :: DigestsOf(changes[p].after) <= contents.Keys
  }

  ghost predicate WellFormed(after: After) {
    match after
    case FileOutput(mode, _) => mode & !ORDINARY == 0
    case EnsuredDirectory(mode) => mode == DIRECTORY_MODE
    case OwnedTree(mode, files) => mode == DIRECTORY_MODE && PrefixFree(files) &&
                                   forall p | p in files :: ValidRelative(p) && files[p].mode & !ORDINARY == 0
    case _ => true
  }

  /** Repeating an output exactly is accepted; disagreeing with one or overlapping one is not. */
  ghost predicate Accepts(changes: map<Path, Change>, tree: Tree, target: Path, after: After) {
    if target in changes then changes[target].after == after
    else (!Blocked(tree, target) && Resolve(tree, target).Some?
          && forall p | p in changes :: !Overlaps(target, after, p, changes[p].after))
  }

  function Added(changes: map<Path, Change>, tree: Tree, target: Path, after: After): map<Path, Change> {
    if target in changes || Resolve(tree, target).None? then changes
    else changes[target := Change(target, Resolve(tree, target).value, State(Lookup(tree, target)), after)]
  }

  function Staged(files: map<Relative, (Bytes, Mode)>): map<Relative, FileEntry> {
    map p | p in files :: FileEntry(files[p].1, Sha256(files[p].0))
  }

  ghost predicate Stageable(files: map<Relative, (Bytes, Mode)>) {
    && (forall p | p in files :: ValidRelative(p) && files[p].1 & !ORDINARY == 0)
    && forall p, q | p in files && q in files && p <= q :: p == q
  }

  /** The builder's invariant: nothing overlaps and no proposed byte is missing. */
  ghost predicate Sound(changes: map<Path, Change>, contents: map<Digest, Bytes>) {
    && NoOverlap(changes) && Retained(changes, contents)
    && forall p | p in changes :: p != [] && WellFormed(changes[p].after)
  }

  lemma AddedSound(changes: map<Path, Change>, contents: map<Digest, Bytes>, tree: Tree, target: Path, after: After)
    requires Sound(changes, contents)
    requires target != [] && WellFormed(after) && DigestsOf(after) <= contents.Keys
    requires Accepts(changes, tree, target, after)
    ensures Sound(Added(changes, tree, target, after), contents)
  {
    var wider := Added(changes, tree, target, after);
    if target !in changes {
      forall p, q | p in wider && q in wider && p < q ensures wider[p].after.EnsuredDirectory? {
        if p == target { assert !Overlaps(target, after, q, changes[q].after); }
        else if q == target { assert !Overlaps(target, after, p, changes[p].after); }
      }
    }
  }

  method OverlapsAny(changes: map<Path, Change>, target: Path, after: After) returns (found: bool)
    requires forall p | p in changes :: changes[p].target == p
    ensures found <==> exists p | p in changes :: Overlaps(target, after, p, changes[p].after)
  {
    var todo := changes.Keys;
    while todo != {}
      invariant todo <= changes.Keys
      invariant forall p | p in changes && p !in todo :: !Overlaps(target, after, p, changes[p].after)
      decreases |todo|
    {
      var p :| p in todo;
      if Overlaps(target, after, changes[p].target, changes[p].after) {
        return true;
      }
      todo := todo - {p};
    }
    found := false;
  }

  /** The loop of `tree`: validates and retains one relative file after another. */
  method StageFiles(files: map<Relative, (Bytes, Mode)>, contents: map<Digest, Bytes>)
    returns (entries: Option<map<Relative, FileEntry>>, retained: map<Digest, Bytes>)
    requires forall d | d in contents :: Sha256(contents[d]) == d
    ensures entries.Some? <==> Stageable(files)
    ensures entries.Some? ==> entries.value == Staged(files) && PrefixFree(entries.value)
    ensures entries.Some? ==> forall p | p in files :: Sha256(files[p].0) in retained
    ensures contents.Keys <= retained.Keys && forall d | d in retained :: Sha256(retained[d]) == d
  {
    var staged: map<Relative, FileEntry> := map[];
    var todo := files.Keys;
    retained := contents;
    while todo != {}
      invariant todo <= files.Keys && staged.Keys == files.Keys - todo
      invariant forall p | p in staged :: ValidRelative(p) && files[p].1 & !ORDINARY == 0
      invariant forall p | p in staged :: staged[p] == FileEntry(files[p].1, Sha256(files[p].0))
      invariant forall p | p in staged :: Sha256(files[p].0) in retained
      invariant contents.Keys <= retained.Keys && forall d | d in retained :: Sha256(retained[d]) == d
      invariant forall p, q | p in staged && q in staged && p <= q :: p == q
      decreases |todo|
    {
      var p :| p in todo;
      var (content, mode) := files[p];
      if !ValidRelative(p) || mode & !ORDINARY != 0 {
        return None, retained;
      }
      if exists q | q in staged :: p <= q || q <= p {
        ghost var q :| q in staged && (p <= q || q <= p);
        assert q in files && q != p;
        return None, retained;
      }
      retained := retained[Sha256(content) := content];
      staged := staged[p := FileEntry(mode, Sha256(content))];
      todo := todo - {p};
    }
    assert staged == Staged(files);
    entries := Some(staged);
  }

  class Builder {
    var changes: map<Path, Change>
    var contents: map<Digest, Bytes>

    ghost predicate Valid()
      reads this
    {
      Sound(changes, contents)
    }

    constructor ()
      ensures Valid() && changes == map[] && contents == map[]
    {
      changes, contents := map[], map[];
    }

    method Add(tree: Tree, target: Path, after: After) returns (ok: bool)
      requires Valid() && target != [] && WellFormed(after) && DigestsOf(after) <= contents.Keys
      modifies this`changes
      ensures Valid()
      ensures ok <==> Accepts(old(changes), tree, target, after)
      ensures changes == if ok then Added(old(changes), tree, target, after) else old(changes)
    {
      if target in changes {
        return changes[target].after == after;
      }
      var overlap := OverlapsAny(changes, target, after);
      var resolved := Resolve(tree, target);
      if overlap || Blocked(tree, target) || resolved.None? {
        return false;
      }
      AddedSound(changes, contents, tree, target, after);
      changes := changes[target := Change(target, resolved.value, State(Lookup(tree, target)), after)];
      ok := true;
    }

    method File(tree: Tree, target: Path, content: Bytes, mode: Mode) returns (ok: bool)
      requires Valid() && target != []
      modifies this
      ensures Valid()
      ensures ok <==>
              (mode & !ORDINARY == 0 && Accepts(old(changes), tree, target, FileOutput(mode, Sha256(content))))
      ensures changes == if ok then Added(old(changes), tree, target, FileOutput(mode, Sha256(content))) else old(changes)
      ensures contents == if mode & !ORDINARY == 0 then old(contents)[Sha256(content) := content] else old(contents)
    {
      if mode & !ORDINARY != 0 {
        return false;
      }
      contents := contents[Sha256(content) := content];
      ok := Add(tree, target, FileOutput(mode, Sha256(content)));
    }

    method Symlink(tree: Tree, target: Path, source: string) returns (ok: bool)
      requires Valid() && target != []
      modifies this`changes
      ensures Valid()
      ensures ok <==> Accepts(old(changes), tree, target, LinkOutput(source))
      ensures changes == if ok then Added(old(changes), tree, target, LinkOutput(source)) else old(changes)
    {
      ok := Add(tree, target, LinkOutput(source));
    }

    method Remove(tree: Tree, target: Path) returns (ok: bool)
      requires Valid() && target != []
      modifies this`changes
      ensures Valid()
      ensures ok <==> Accepts(old(changes), tree, target, Removed)
      ensures changes == if ok then Added(old(changes), tree, target, Removed) else old(changes)
    {
      ok := Add(tree, target, Removed);
    }

    /** One owned tree: accepted only when its relative files are valid and prefix-free. */
    method Tree(tree: Tree, target: Path, files: map<Relative, (Bytes, Mode)>) returns (ok: bool)
      requires Valid() && target != []
      modifies this
      ensures Valid()
      ensures ok <==>
              (Stageable(files) && Accepts(old(changes), tree, target, OwnedTree(DIRECTORY_MODE, Staged(files))))
      ensures changes ==
              if ok then Added(old(changes), tree, target, OwnedTree(DIRECTORY_MODE, Staged(files))) else old(changes)
      ensures old(contents).Keys <= contents.Keys
    {
      var entries, retained := StageFiles(files, contents);
      contents := retained;
      if entries.None? {
        return false;
      }
      ok := Add(tree, target, OwnedTree(DIRECTORY_MODE, entries.value));
    }

    /** Ensure a directory without owning its children; an existing one is left alone. */
    method Directory(tree: Tree, target: Path) returns (ok: bool)
      requires Valid() && target != []
      modifies this`changes
      ensures Valid()
      ensures ok <==>
              if Lookup(tree, target).Some? then IsDir(tree, target)
              else Accepts(old(changes), tree, target, EnsuredDirectory(DIRECTORY_MODE))
      ensures changes ==
              if ok && Lookup(tree, target).None?
              then Added(old(changes), tree, target, EnsuredDirectory(DIRECTORY_MODE)) else old(changes)
    {
      if Lookup(tree, target).Some? {
        return IsDir(tree, target);
      }
      ok := Add(tree, target, EnsuredDirectory(DIRECTORY_MODE));
    }

    /** The changes in text order with the staged bytes, if nothing has moved under them. */
    method Freeze(tree: Tree, state: Path) returns (plan: Option<Plan>)
      requires Valid()
      ensures plan.Some? <==> forall p | p in changes :: Freezable(tree, state, p, changes[p])
      ensures plan.Some? ==> Frozen(plan.value) && plan.value.staged == contents
      ensures plan.Some? ==> forall c :: c in plan.value.changes <==> c.target in changes && changes[c.target] == c
    {
      var order := Sorted(changes.Keys);
      var frozen: seq<Change> := [];
      for k := 0 to |order|
        invariant |frozen| == k && forall i | 0 <= i < k :: order[i] in changes && frozen[i] == changes[order[i]]
        invariant forall i | 0 <= i < k :: Freezable(tree, state, order[i], frozen[i])
      {
        assert order[k] in order;
        if !Freezable(tree, state, order[k], changes[order[k]]) {
          return None;
        }
        frozen := frozen + [changes[order[k]]];
      }
      plan := Some(Plan(frozen, contents));
      FrozenPlan(changes, contents, order, frozen);
      forall p | p in changes ensures Freezable(tree, state, p, changes[p]) {
        assert p in order;
      }
    }
  }

  lemma FrozenPlan(changes: map<Path, Change>, contents: map<Digest, Bytes>, order: seq<Path>, frozen: seq<Change>)
    requires Sound(changes, contents)
    requires Distinct(order) && forall p :: p in order <==> p in changes
    requires |frozen| == |order| && forall i | 0 <= i < |order| :: frozen[i] == changes[order[i]]
    ensures Frozen(Plan(frozen, contents))
    ensures forall c :: c in frozen <==> c.target in changes && changes[c.target] == c
  {
    forall i | 0 <= i < |order| ensures order[i] in changes && frozen[i].target == order[i] {
      assert order[i] in order;
    }
    forall c ensures c in frozen <==> c.target in changes && changes[c.target] == c {
      if c in frozen {
        var i :| 0 <= i < |frozen| && frozen[i] == c;
        assert c.target == order[i];
      }
      if c.target in changes && changes[c.target] == c {
        var i :| 0 <= i < |order| && order[i] == c.target;
        assert frozen[i] == c;
      }
    }
  }

  /** check_inputs for one destination. */
  predicate Fresh(tree: Tree, change: Change) {
    && !Blocked(tree, change.target) && Resolve(tree, change.target) == Some(change.resolved)
    && State(Lookup(tree, change.target)) == change.before
  }

  /** Outside the state directory, and still as it was when it was proposed. */
  predicate Freezable(tree: Tree, state: Path, target: Path, change: Change) {
    !(state <= target) && !(target <= state) && Fresh(tree, change)
  }

  /** What a frozen plan guarantees its publisher. */
  ghost predicate Frozen(plan: Plan) {
    && (forall i | 0 <= i < |plan.changes| :: plan.changes[i].target != [] && WellFormed(plan.changes[i].after))
    && (forall i | 0 <= i < |plan.changes| :: DigestsOf(plan.changes[i].after) <= plan.staged.Keys)
    && (forall d | d in plan.staged :: Sha256(plan.staged[d]) == d)
    && (forall i, j | 0 <= i < |plan.changes| && 0 <= j < |plan.changes| && i != j ::
          plan.changes[i].target != plan.changes[j].target)
    && forall i, j | 0 <= i < |plan.changes| && 0 <= j < |plan.changes| &&
                     plan.changes[i].target < plan.changes[j].target :: plan.changes[i].after.EnsuredDirectory?
  }
}
