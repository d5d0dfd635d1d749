/** The finite file tree that a publication reads and renames, and the node
    fingerprint (`path_state`) that plans and journals record of it. */
module Trees {
  import opened Common

  /** A directory entry's name. `Private` names are the ones mkdtemp makes for
      replacement workspaces; a plan's own outputs are `Named`. */
  datatype Name = Named(text: string) | Private(serial: nat)
  type Path = seq<Name>

  /** The permission bits that S_IMODE keeps. */
  type Mode = bv12
  const OWNER_ALL: Mode := 0x1c0
  const ORDINARY: Mode := 0x1ff
  const DIRECTORY_MODE: Mode := 0x1ed

  /** A digest names its content: SHA-256 taken as injective. */
  datatype Digest = Sha256(content: Bytes)

  /** What `path_state` records of a path that exists; `None` is the "absent" kind. */
  datatype Node =
    | File(mode: Mode, digest: Digest)
    | Symlink(target: string)
    | Directory(mode: Mode, entries: map<Name, Node>)

  /** What is on disk. A directory also has an identity (device and inode). */
  datatype Tree =
    | Reg(mode: Mode, content: Bytes)
    | Link(target: string)
    | Dir(mode: Mode, ino: nat, entries: map<Name, Tree>)

  function PathState(t: Tree): Node {
    match t
    case Reg(mode, content) => File(mode, Sha256(content))
    case Link(target) => Symlink(target)
    case Dir(mode, _, entries) => Directory(mode, map n | n in entries :: PathState(entries[n]))
  }

  function State(o: Option<Tree>): Option<Node> {
    if o.Some? then Some(PathState(o.value)) else None
  }

  predicate Apart(p: Path, q: Path) {
    !(p <= q) && !(q <= p)
  }

  function Parent(p: Path): (q: Path)
    requires p != []
    ensures q < p && |q| == |p| - 1
  {
    p[..|p| - 1]
  }

  /** What is at `p`; links are never followed. */
  function Lookup(t: Tree, p: Path): Option<Tree>
    decreases |p|
  {
    if p == [] then Some(t)
    else if t.Dir? && p[0] in t.entries then Lookup(t.entries[p[0]], p[1..])
    else None
  }

  /** Something other than a directory stands on the way to `p`. */
  predicate Redirected(t: Tree, p: Path)
    decreases |p|
  {
    p != [] && if t.Dir? then p[0] in t.entries && Redirected(t.entries[p[0]], p[1..]) else true
  }

  /** A file stands on the way to `p`: nothing can be there. */
  predicate Blocked(t: Tree, p: Path)
    decreases |p|
  {
    p != [] && match t
               case Reg(_, _) => true
               case Link(_) => false
               case Dir(_, _, entries) => p[0] in entries && Blocked(entries[p[0]], p[1..])
  }

  /** A link stands on the way to `p`. Paths name what links resolve to, so one that is
      still on the way leads nowhere. */
  predicate Dangling(t: Tree, p: Path)
    decreases |p|
  {
    p != [] && match t
               case Reg(_, _) => false
               case Link(_) => true
               case Dir(_, _, entries) => p[0] in entries && Dangling(entries[p[0]], p[1..])
  }

  lemma {:induction false} RedirectedBy(t: Tree, p: Path)
    ensures Redirected(t, p) <==> Blocked(t, p) || Dangling(t, p)
    ensures Dangling(t, p) ==> !Blocked(t, p)
    decreases |p|
  {
    if p != [] && t.Dir? && p[0] in t.entries { RedirectedBy(t.entries[p[0]], p[1..]); }
  }

  predicate LinkAt(t: Tree, p: Path) {
    Lookup(t, p).Some? && Lookup(t, p).value.Link?
  }

  /** What a link leads nowhere from: everything below it. */
  lemma {:induction false} DanglingIsBelowLink(t: Tree, p: Path)
    ensures Dangling(t, p) <==> exists q :: q < p && LinkAt(t, q)
    decreases |p|
  {
    if p == [] || !t.Dir? {
      if p != [] && t.Link? { assert [] < p && LinkAt(t, []); }
      forall q | q < p && LinkAt(t, q) ensures t.Link? { }
    } else {
      if p[0] in t.entries {
        var child := t.entries[p[0]];
        DanglingIsBelowLink(child, p[1..]);
        if Dangling(t, p) {
          var q :| q < p[1..] && LinkAt(child, q);
          assert ([p[0]] + q)[1..] == q && p == [p[0]] + p[1..];
          assert [p[0]] + q < p && LinkAt(t, [p[0]] + q);
        }
      }
      if q :| q < p && LinkAt(t, q) {
        assert q != [] && q[0] == p[0] && q[1..] < p[1..];
        assert LinkAt(t.entries[p[0]], q[1..]);
      }
    }
  }

  predicate IsDir(t: Tree, p: Path) {
    Lookup(t, p).Some? && Lookup(t, p).value.Dir?
  }

  /** The tree with `o` at `p`: one create, unlink or rename of a whole subtree.
      A path whose parent is not a directory changes nothing. */
  function Put(t: Tree, p: Path, o: Option<Tree>): Tree
    decreases |p|
  {
    if p == [] || !t.Dir? then t
    else if |p| == 1 then
      Dir(t.mode, t.ino, if o.Some? then t.entries[p[0] := o.value] else t.entries - {p[0]})
    else if p[0] in t.entries then
      Dir(t.mode, t.ino, t.entries[p[0] := Put(t.entries[p[0]], p[1..], o)])
    else t
  }

  lemma {:induction false} LookupSplit(t: Tree, p: Path, q: Path)
    ensures Lookup(t, p + q) == if Lookup(t, p).Some? then Lookup(Lookup(t, p).value, q) else None
    decreases |p|
  {
    if p == [] {
      assert p + q == q;
    } else {
      assert (p + q)[0] == p[0] && (p + q)[1..] == p[1..] + q;
      if t.Dir? && p[0] in t.entries { LookupSplit(t.entries[p[0]], p[1..], q); }
    }
  }

  /** A directory at the parent leaves nothing in the way. */
  lemma {:induction false} NotRedirected(t: Tree, p: Path)
    requires p != []
    requires IsDir(t, Parent(p))
    ensures !Redirected(t, p)
    decreases |p|
  {
    if |p| > 1 {
      assert Parent(p)[0] == p[0] && Parent(p)[1..] == Parent(p[1..]);
      NotRedirected(t.entries[p[0]], p[1..]);
    }
  }

  /** Whatever is found was found through directories. */
  lemma {:induction false} FoundThroughDirectories(t: Tree, p: Path, q: Path)
    requires q < p
    requires Lookup(t, p).Some?
    ensures IsDir(t, q) && !Redirected(t, p)
    decreases |p|
  {
    if q != [] {
      assert q[0] == p[0] && q[1..] < p[1..];
      FoundThroughDirectories(t.entries[p[0]], p[1..], q[1..]);
    } else if p[1..] != [] {
      FoundThroughDirectories(t.entries[p[0]], p[1..], []);
    }
  }

  lemma {:induction false} PutAt(t: Tree, p: Path, o: Option<Tree>)
    requires p != []
    requires IsDir(t, Parent(p))
    ensures Lookup(Put(t, p, o), p) == o
    ensures IsDir(Put(t, p, o), Parent(p))
    ensures !Redirected(Put(t, p, o), p)
    decreases |p|
  {
    if |p| > 1 {
      assert Parent(p)[0] == p[0] && Parent(p)[1..] == Parent(p[1..]);
      PutAt(t.entries[p[0]], p[1..], o);
    }
    NotRedirected(Put(t, p, o), p);
  }

  lemma {:induction false} PutApart(t: Tree, p: Path, o: Option<Tree>, q: Path)
    requires Apart(p, q)
    ensures Lookup(Put(t, p, o), q) == Lookup(t, q)
    ensures Redirected(Put(t, p, o), q) == Redirected(t, q)
    decreases |p|
  {
    if p != [] && t.Dir? && |p| > 1 && p[0] in t.entries && q != [] && q[0] == p[0] {
      PutApart(t.entries[p[0]], p[1..], o, q[1..]);
    }
  }

  /** A change below a directory keeps that directory, its mode and its identity. */
  lemma {:induction false} PutBeneath(t: Tree, p: Path, o: Option<Tree>, q: Path)
    requires q < p
    requires IsDir(t, Parent(p))
    ensures IsDir(t, q) && IsDir(Put(t, p, o), q)
    ensures Lookup(Put(t, p, o), q).value == Put(Lookup(t, q).value, p[|q|..], o)
    ensures Lookup(Put(t, p, o), q).value.mode == Lookup(t, q).value.mode
    ensures Lookup(Put(t, p, o), q).value.ino == Lookup(t, q).value.ino
    ensures !Redirected(t, q) && !Redirected(Put(t, p, o), q)
    decreases |p|
  {
    if q != [] {
      assert Parent(p)[0] == p[0] && Parent(p)[1..] == Parent(p[1..]);
      PutBeneath(t.entries[p[0]], p[1..], o, q[1..]);
      assert p[1..][|q[1..]|..] == p[|q|..];
    }
  }

  lemma {:induction false} PutOver(t: Tree, p: Path, o: Option<Tree>, r: Path)
    requires p != []
    requires IsDir(t, Parent(p))
    ensures Lookup(Put(t, p, o), p + r) == if o.Some? then Lookup(o.value, r) else None
    ensures Redirected(Put(t, p, o), p + r) == (o.Some? && Redirected(o.value, r))
    decreases |p|
  {
    assert (p + r)[0] == p[0] && (p + r)[1..] == p[1..] + r;
    if |p| > 1 {
      assert Parent(p)[0] == p[0] && Parent(p)[1..] == Parent(p[1..]);
      PutOver(t.entries[p[0]], p[1..], o, r);
    } else {
      assert p[1..] + r == r;
    }
  }

  lemma {:induction false} PutTwice(t: Tree, p: Path, a: Option<Tree>, b: Option<Tree>)
    ensures Put(Put(t, p, a), p, b) == Put(t, p, b)
    decreases |p|
  {
    if p != [] && t.Dir? {
      if |p| == 1 {
        var m := if a.Some? then t.entries[p[0] := a.value] else t.entries - {p[0]};
        assert (if b.Some? then m[p[0] := b.value] else m - {p[0]})
            == (if b.Some? then t.entries[p[0] := b.value] else t.entries - {p[0]});
      } else if p[0] in t.entries {
        var c := t.entries[p[0]];
        PutTwice(c, p[1..], a, b);
        assert t.entries[p[0] := Put(c, p[1..], a)][p[0] := Put(c, p[1..], b)]
            == t.entries[p[0] := Put(c, p[1..], b)];
      }
    }
  }

  lemma {:induction false} PutSame(t: Tree, p: Path)
    requires p != []
    requires IsDir(t, Parent(p))
    ensures Put(t, p, Lookup(t, p)) == t
    decreases |p|
  {
    if |p| == 1 {
      if p[0] in t.entries {
        assert Lookup(t, p) == Some(t.entries[p[0]]);
      } else {
        assert t.entries - {p[0]} == t.entries;
      }
    } else {
      assert Parent(p)[0] == p[0] && Parent(p)[1..] == Parent(p[1..]);
      PutSame(t.entries[p[0]], p[1..]);
    }
  }

  /** A change below `p` is a change of the subtree at `p`. */
  lemma {:induction false} PutNested(t: Tree, p: Path, r: Path, o: Option<Tree>)
    requires p != [] && r != []
    requires Lookup(t, p).Some?
    ensures Put(t, p + r, o) == Put(t, p, Some(Put(Lookup(t, p).value, r, o)))
    decreases |p|
  {
    assert (p + r)[0] == p[0] && (p + r)[1..] == p[1..] + r;
    if |p| > 1 {
      PutNested(t.entries[p[0]], p[1..], r, o);
    } else {
      assert p[1..] + r == r;
      assert Lookup(t, p) == Some(t.entries[p[0]]);
    }
  }

  /** The tree under `f` after only removals and owner-mode additions. */
  ghost predicate Shrunk(g: Tree, f: Tree) {
    || g == f
    || (&& g.Dir? && f.Dir? && g.ino == f.ino
        && (g.mode == f.mode || g.mode == f.mode | OWNER_ALL)
        && forall n | n in g.entries :: n in f.entries && Shrunk(g.entries[n], f.entries[n]))
  }

  lemma {:induction false} ShrunkTransitive(h: Tree, g: Tree, f: Tree)
    requires Shrunk(h, g) && Shrunk(g, f)
    ensures Shrunk(h, f)
    decreases h
  {
    if h != g && g != f {
      assert f.mode | OWNER_ALL | OWNER_ALL == f.mode | OWNER_ALL;
      forall n | n in h.entries ensures n in f.entries && Shrunk(h.entries[n], f.entries[n]) {
        ShrunkTransitive(h.entries[n], g.entries[n], f.entries[n]);
      }
    }
  }
}
