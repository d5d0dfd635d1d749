/** Owned trees: the flat relative file map a renderer stages and the nested
    directory node that publishing it produces. */
module OwnedTrees {
  import opened Common
  import opened Trees

  /** A relative path by its parts. */
  type Relative = seq<string>
  datatype FileEntry = FileEntry(mode: Mode, digest: Digest)

  predicate ValidPart(part: string) {
    part != "" && part != "." && part != ".." && '/' !in part && '\\' !in part
  }

  predicate ValidRelative(parts: Relative) {
    parts != [] && forall k | 0 <= k < |parts| :: ValidPart(parts[k])
  }

  /** What `_desired` refuses: no parts, or one that does not descend. */
  predicate Climbs(parts: Relative) {
    parts == [] || "." in parts || ".." in parts
  }

  /** No staged file lies on or under another one. */
  ghost predicate PrefixFree(files: map<Relative, FileEntry>) {
    && (forall p | p in files :: p != [])
    && (forall p, q | p in files && q in files && p <= q :: p == q)
  }

  /** One file of the map, with the directories that lead to it; `None` where
      the code would descend into a file. */
  function Insert(node: Node, parts: Relative, entry: FileEntry): Option<Node>
    requires parts != []
    decreases |parts|
  {
    if !node.Directory? then None
    else
      var name := Named(parts[0]);
      if |parts| == 1 then
        Some(Directory(node.mode, node.entries[name := File(entry.mode, entry.digest)]))
      else
        var child := if name in node.entries then node.entries[name] else Directory(DIRECTORY_MODE, map[]);
        var grown := Insert(child, parts[1..], entry);
        if grown.None? then None else Some(Directory(node.mode, node.entries[name := grown.value]))
  }

  /** Flattening: the file at a relative path of a node. */
  function FileAt(node: Node, parts: Relative): Option<FileEntry>
    decreases |parts|
  {
    if parts == [] then
      if node.File? then Some(FileEntry(node.mode, node.digest)) else None
    else if node.Directory? && Named(parts[0]) in node.entries then
      FileAt(node.entries[Named(parts[0])], parts[1..])
    else None
  }

  /** Below the root there are only files and the directories they need. */
  predicate LeanChild(node: Node) {
    node.File? ||
    (&& node.Directory? && node.mode == DIRECTORY_MODE && node.entries != map[]
     && forall n | n in node.entries :: n.Named? && LeanChild(node.entries[n]))
  }

  predicate Lean(node: Node) {
    node.Directory? && forall n | n in node.entries :: n.Named? && LeanChild(node.entries[n])
  }

  ghost predicate Clear(node: Node, parts: Relative) {
    forall q | FileAt(node, q).Some? :: !(q <= parts) && !(parts <= q)
  }

  ghost predicate Represents(node: Node, mode: Mode, files: map<Relative, FileEntry>) {
    && Lean(node) && node.mode == mode
    && forall q :: FileAt(node, q) == if q in files then Some(files[q]) else None
  }

  lemma {:induction false} LeanHasFile(node: Node) returns (q: Relative)
    requires LeanChild(node)
    ensures FileAt(node, q).Some?
    decreases node
  {
    if node.File? {
      q := [];
    } else {
      var n :| n in node.entries;
      var rest := LeanHasFile(node.entries[n]);
      q := [n.text] + rest;
      assert q[1..] == rest;
    }
  }

  lemma FileAtStep(node: Node, name: string, q: Relative)
    requires node.Directory?
    ensures FileAt(node, [name] + q)
         == if Named(name) in node.entries then FileAt(node.entries[Named(name)], q) else None
  {
    assert ([name] + q)[1..] == q;
  }

  lemma ClearBelow(node: Node, parts: Relative)
    requires node.Directory? && parts != [] && Clear(node, parts)
    requires Named(parts[0]) in node.entries
    ensures Clear(node.entries[Named(parts[0])], parts[1..])
  {
    var child := node.entries[Named(parts[0])];
    forall q | FileAt(child, q).Some? ensures !(q <= parts[1..]) && !(parts[1..] <= q) {
      FileAtStep(node, parts[0], q);
      var full := [parts[0]] + q;
      assert parts == [parts[0]] + parts[1..];
      assert full[1..] == q;
      assert full <= parts <==> q <= parts[1..];
      assert parts <= full <==> parts[1..] <= q;
    }
  }

  /** Adding a file that neither covers nor is covered by another one changes
      that one path and no other. */
  lemma {:induction false} InsertOne(node: Node, parts: Relative, entry: FileEntry)
    requires parts != [] && Lean(node) && Clear(node, parts)
    ensures Insert(node, parts, entry).Some?
    ensures var grown := Insert(node, parts, entry).value;
            && Lean(grown) && grown.mode == node.mode && grown.entries != map[]
            && forall q :: FileAt(grown, q) == if q == parts then Some(entry) else FileAt(node, q)
    decreases |parts|
  {
    var name := Named(parts[0]);
    if |parts| == 1 {
      assert parts == [parts[0]];
      InsertLeaf(node, parts[0], entry);
    } else {
      var child := if name in node.entries then node.entries[name] else Directory(DIRECTORY_MODE, map[]);
      if name in node.entries {
        ClearBelow(node, parts);
        assert FileAt(child, []).None?;
      } else {
        forall q | FileAt(child, q).Some? ensures false { }
      }
      InsertOne(child, parts[1..], entry);
      var grownChild := Insert(child, parts[1..], entry).value;
      var grown := Insert(node, parts, entry).value;
      forall q ensures FileAt(grown, q) == if q == parts then Some(entry) else FileAt(node, q) {
        if q != [] && q[0] == parts[0] {
          assert q == parts <==> q[1..] == parts[1..] by {
            assert q == [q[0]] + q[1..] && parts == [parts[0]] + parts[1..];
          }
          if name !in node.entries { assert FileAt(child, q[1..]) == None; }
        }
      }
    }
  }

  lemma NotClearOver(node: Node, part: string)
    requires Lean(node) && Named(part) in node.entries
    ensures !Clear(node, [part])
  {
    var rest := LeanHasFile(node.entries[Named(part)]);
    FileAtStep(node, part, rest);
    assert [part] <= [part] + rest;
  }

  lemma InsertLeaf(node: Node, part: string, entry: FileEntry)
    requires Lean(node) && Clear(node, [part])
    ensures Insert(node, [part], entry).Some?
    ensures var grown := Insert(node, [part], entry).value;
            && Lean(grown) && grown.mode == node.mode && grown.entries != map[]
            && forall q :: FileAt(grown, q) == if q == [part] then Some(entry) else FileAt(node, q)
  {
    var name := Named(part);
    if name in node.entries {
      NotClearOver(node, part);
    }
    var grown := Insert(node, [part], entry).value;
    assert name in grown.entries;
    forall q ensures FileAt(grown, q) == if q == [part] then Some(entry) else FileAt(node, q) {
      if q != [] && q[0] == part && q[1..] != [] {
        assert q != [part];
      }
      if q != [] && q[0] == part && q[1..] == [] { assert q == [part]; }
    }
  }

  /** Two lean directories that flatten alike are the same node. */
  lemma {:induction false} LeanUnique(a: Node, b: Node)
    requires Lean(a) && Lean(b) && a.mode == b.mode
    requires forall q :: FileAt(a, q) == FileAt(b, q)
    ensures a == b
    decreases a
  {
    LeanSubset(a, b);
    LeanSubset(b, a);
    forall n | n in a.entries ensures a.entries[n] == b.entries[n] {
      var x, y := a.entries[n], b.entries[n];
      forall q ensures FileAt(x, q) == FileAt(y, q) {
        FileAtStep(a, n.text, q);
        FileAtStep(b, n.text, q);
      }
      assert FileAt(x, []) == FileAt(y, []);
      if x.Directory? { LeanUnique(x, y); }
    }
    assert a.entries == b.entries;
  }

  lemma LeanSubset(a: Node, b: Node)
    requires Lean(a) && Lean(b)
    requires forall q :: FileAt(a, q) == FileAt(b, q)
    ensures a.entries.Keys <= b.entries.Keys
  {
    forall n | n in a.entries ensures n in b.entries {
      var q := LeanHasFile(a.entries[n]);
      FileAtStep(a, n.text, q);
      FileAtStep(b, n.text, q);
    }
  }

  ghost function SomeFile(files: map<Relative, FileEntry>): Relative
    requires files != map[]
    ensures SomeFile(files) in files
  {
    var p :| p in files;
    p
  }

  /** The published node of a staged file map, its files taken in some order. */
  ghost function Unflatten(mode: Mode, files: map<Relative, FileEntry>): Option<Node>
    decreases |files|
  {
    if files == map[] then Some(Directory(mode, map[]))
    else
      var p := SomeFile(files);
      if p == [] then None
      else
        var rest := Unflatten(mode, files - {p});
        if rest.None? then None else Insert(rest.value, p, files[p])
  }

  lemma {:induction false} UnflattenRepresents(mode: Mode, files: map<Relative, FileEntry>)
    requires PrefixFree(files)
    ensures Unflatten(mode, files).Some?
    ensures Represents(Unflatten(mode, files).value, mode, files)
    decreases |files|
  {
    if files == map[] {
      var node := Directory(mode, map[]);
      forall q ensures FileAt(node, q) == None { }
    } else {
      var p := SomeFile(files);
      var fewer := files - {p};
      assert |fewer| < |files| by { assert fewer.Keys == files.Keys - {p}; }
      UnflattenRepresents(mode, fewer);
      var node := Unflatten(mode, fewer).value;
      ClearOf(node, mode, fewer, p, files);
      InsertOne(node, p, files[p]);
    }
  }

  lemma ClearOf(node: Node, mode: Mode, fewer: map<Relative, FileEntry>, p: Relative, files: map<Relative, FileEntry>)
    requires PrefixFree(files) && p in files && fewer == files - {p}
    requires Represents(node, mode, fewer)
    ensures Clear(node, p)
  {
    forall q | FileAt(node, q).Some? ensures !(q <= p) && !(p <= q) {
      assert q in fewer;
    }
  }

  ghost predicate Partial(built: Node, mode: Mode, files: map<Relative, FileEntry>, todo: map<Relative, FileEntry>) {
    && todo.Keys <= files.Keys
    && (forall p | p in todo :: todo[p] == files[p])
    && (PrefixFree(files) ==> Represents(built, mode, files - todo.Keys))
  }

  lemma PartialStep(built: Node, mode: Mode, files: map<Relative, FileEntry>, todo: map<Relative, FileEntry>, p: Relative)
    requires Partial(built, mode, files, todo)
    requires p in todo && p != []
    ensures PrefixFree(files) ==> Insert(built, p, todo[p]).Some?
    ensures Insert(built, p, todo[p]).Some? ==>
              Partial(Insert(built, p, todo[p]).value, mode, files, todo - {p})
  {
    if PrefixFree(files) { PartialStepFree(built, mode, files, todo, p); }
  }

  lemma PartialStepFree(built: Node, mode: Mode, files: map<Relative, FileEntry>, todo: map<Relative, FileEntry>, p: Relative)
    requires PrefixFree(files) && p in files && p in todo && p != []
    requires Represents(built, mode, files - todo.Keys)
    ensures Insert(built, p, files[p]).Some?
    ensures Represents(Insert(built, p, files[p]).value, mode, files - (todo - {p}).Keys)
  {
    var done, wider := files - todo.Keys, files - (todo - {p}).Keys;
    assert (todo - {p}).Keys == todo.Keys - {p};
    assert wider - {p} == done;
    ClearOf(built, mode, done, p, wider);
    InsertOne(built, p, files[p]);
  }

  lemma PartialDone(built: Node, mode: Mode, files: map<Relative, FileEntry>)
    requires Partial(built, mode, files, map[]) && PrefixFree(files)
    ensures Some(built) == Unflatten(mode, files) && Represents(built, mode, files)
  {
    assert files - {} == files;
    UnflattenRepresents(mode, files);
    LeanUnique(built, Unflatten(mode, files).value);
  }

  /** `_desired` on an owned tree: one pass over the files, in any order. */
  method BuildDirectory(mode: Mode, files: map<Relative, FileEntry>) returns (node: Option<Node>)
    ensures (exists p | p in files :: Climbs(p)) ==> node == None
    ensures (forall p | p in files :: !Climbs(p)) && PrefixFree(files) ==>
              node == Unflatten(mode, files) && node.Some? && Represents(node.value, mode, files)
  {
    var built := Directory(mode, map[]);
    var todo := files;
    forall q ensures FileAt(built, q) == None { }
    assert files - todo.Keys == map[];
    while todo != map[]
      invariant Partial(built, mode, files, todo)
      invariant forall p | p in files && p !in todo :: !Climbs(p)
      decreases |todo|
    {
      var p :| p in todo;
      if Climbs(p) {
        return None;
      }
      PartialStep(built, mode, files, todo, p);
      var grown := Insert(built, p, todo[p]);
      if grown.None? {
        return None;
      }
      built := grown.value;
      assert (todo - {p}).Keys == todo.Keys - {p};
      todo := todo - {p};
    }
    if PrefixFree(files) {
      PartialDone(built, mode, files);
    }
    node := Some(built);
  }
}
