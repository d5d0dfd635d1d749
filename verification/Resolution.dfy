/** What a path resolves to: links followed through to the end, as realpath does when
    nothing has to exist. */
module Resolution {
  import opened Common
  import opened Trees

  /** A name that leads down, and is nobody's private workspace. */
  predicate OwnName(n: Name) {
    n.Named? && n.text != ".."
  }

  predicate Ordinary(p: Path) {
    forall k | 0 <= k < |p| :: OwnName(p[k])
  }

  /** A path of ordinary names. */
  predicate OwnNames(p: Path) {
    p != [] && Ordinary(p)
  }

  /** What the link at `p` says, if there is one. */
  function LinkText(t: Tree, p: Path): Option<string> {
    var o := Lookup(t, p);
    if o.Some? && o.value.Link? then Some(o.value.target) else None
  }

  predicate Absolute(text: string) {
    text != "" && text[0] == '/'
  }

  function UpToSlash(text: string): (n: nat)
    ensures n <= |text|
  {
    if text == "" || text[0] == '/' then 0 else 1 + UpToSlash(text[1..])
  }

  /** The parts of a link's text that lead anywhere. */
  function PartsOf(text: string): Path
    decreases |text|
  {
    if text == "" then []
    else
      var n := UpToSlash(text);
      var part := text[..n];
      var rest := if n < |text| then PartsOf(text[n + 1..]) else [];
      if part == "" || part == "." then rest else [Named(part)] + rest
  }

  predicate AllNamed(parts: Path) {
    forall k | 0 <= k < |parts| :: parts[k].Named?
  }

  lemma {:induction false} PartsAreNamed(text: string)
    ensures AllNamed(PartsOf(text))
    decreases |text|
  {
    if text != "" {
      var n := UpToSlash(text);
      if n < |text| { PartsAreNamed(text[n + 1..]); }
    }
  }

  const UP: Name := Named("..")

  /** Links nested deeper than this are taken for a loop. */
  const DEPTH: nat := 40

  /** From a resolved base along the parts; `None` is a loop of links. */
  function Walk(t: Tree, base: Path, parts: Path, depth: nat): Option<Path>
    decreases depth, |parts|
  {
    if parts == [] then Some(base)
    else if parts[0] == UP then Walk(t, if base == [] then [] else Parent(base), parts[1..], depth)
    else
      var next := base + [parts[0]];
      var text := LinkText(t, next);
      if text.None? then Walk(t, next, parts[1..], depth)
      else if depth == 0 then None
      else
        var there := Walk(t, if Absolute(text.value) then [] else base, PartsOf(text.value), depth - 1);
        if there.None? then None else Walk(t, there.value, parts[1..], depth)
  }

  /** `Path.resolve`; a loop raises. */
  function Resolve(t: Tree, p: Path): Option<Path> {
    Walk(t, [], p, DEPTH)
  }

  /** `path_state` gets past resolving the path. */
  predicate Reads(t: Tree, p: Path) {
    Resolve(t, p).Some?
  }

  /** The same links say the same. */
  ghost predicate LinksAlike(a: Tree, b: Tree) {
    forall q | OwnNames(q) :: LinkText(a, q) == LinkText(b, q)
  }

  lemma {:induction false} WalkAlike(a: Tree, b: Tree, base: Path, parts: Path, depth: nat)
    requires LinksAlike(a, b) && Ordinary(base) && AllNamed(parts)
    ensures Walk(a, base, parts, depth) == Walk(b, base, parts, depth)
    ensures Walk(a, base, parts, depth).Some? ==> Ordinary(Walk(a, base, parts, depth).value)
    decreases depth, |parts|
  {
    if parts != [] {
      if parts[0] == UP {
        WalkAlike(a, b, if base == [] then [] else Parent(base), parts[1..], depth);
      } else {
        var next := base + [parts[0]];
        assert OwnNames(next);
        var text := LinkText(a, next);
        if text.None? {
          WalkAlike(a, b, next, parts[1..], depth);
        } else if depth > 0 {
          PartsAreNamed(text.value);
          WalkAlike(a, b, if Absolute(text.value) then [] else base, PartsOf(text.value), depth - 1);
          var there := Walk(a, if Absolute(text.value) then [] else base, PartsOf(text.value), depth - 1);
          if there.Some? { WalkAlike(a, b, there.value, parts[1..], depth); }
        }
      }
    }
  }

  /** Where a path resolves to depends on the links alone. */
  lemma ResolveAlike(a: Tree, b: Tree, p: Path)
    requires LinksAlike(a, b) && AllNamed(p)
    ensures Resolve(a, p) == Resolve(b, p)
  {
    WalkAlike(a, b, [], p, DEPTH);
  }

  lemma {:induction false} WalkSplits(t: Tree, base: Path, first: Path, rest: Path, depth: nat)
    ensures Walk(t, base, first + rest, depth) ==
            var there := Walk(t, base, first, depth); if there.None? then None else Walk(t, there.value, rest, depth)
    decreases depth, |first|
  {
    if first == [] {
      assert first + rest == rest;
    } else {
      assert (first + rest)[0] == first[0] && (first + rest)[1..] == first[1..] + rest;
      if first[0] == UP {
        WalkSplits(t, if base == [] then [] else Parent(base), first[1..], rest, depth);
      } else {
        var next := base + [first[0]];
        var text := LinkText(t, next);
        if text.None? {
          WalkSplits(t, next, first[1..], rest, depth);
        } else if depth > 0 {
          var there := Walk(t, if Absolute(text.value) then [] else base, PartsOf(text.value), depth - 1);
          if there.Some? { WalkSplits(t, there.value, first[1..], rest, depth); }
        }
      }
    }
  }

  /** A path that resolves has parents that do. */
  lemma ResolvesAbove(t: Tree, p: Path, q: Path)
    requires p <= q && Resolve(t, q).Some?
    ensures Resolve(t, p).Some?
  {
    assert q == p + q[|p|..];
    WalkSplits(t, [], p, q[|p|..], DEPTH);
  }

  /** Trees of one fingerprint have the same links in them. */
  lemma {:induction false} SameStateSameLinks(a: Tree, b: Tree, p: Path)
    requires PathState(a) == PathState(b)
    ensures LinkText(a, p) == LinkText(b, p)
    decreases |p|
  {
    if p != [] && a.Dir? {
      assert PathState(a).entries.Keys == a.entries.Keys && PathState(b).entries.Keys == b.entries.Keys;
      if p[0] in a.entries {
        assert PathState(a).entries[p[0]] == PathState(a.entries[p[0]]);
        SameStateSameLinks(a.entries[p[0]], b.entries[p[0]], p[1..]);
      }
    }
  }

  /** A path with no link on it resolves to itself. */
  lemma {:induction false} StraightWalk(t: Tree, base: Path, p: Path, depth: nat)
    requires forall k | 0 <= k < |p| :: p[k] != UP
    requires forall q | base < q && q <= base + p :: LinkText(t, q).None?
    ensures Walk(t, base, p, depth) == Some(base + p)
    decreases |p|
  {
    if p == [] {
      assert base + p == base;
    } else {
      var next := base + [p[0]];
      assert next + p[1..] == base + p;
      assert base < next && next <= base + p;
      StraightWalk(t, next, p[1..], depth);
    }
  }

  lemma ResolvesToItself(t: Tree, p: Path)
    requires forall k | 0 <= k < |p| :: p[k] != UP
    requires !Dangling(t, p) && LinkText(t, p).None?
    ensures Resolve(t, p) == Some(p)
  {
    assert [] + p == p;
    DanglingIsBelowLink(t, p);
    forall q | [] < q && q <= p ensures LinkText(t, q).None? {
      assert q != p ==> q < p;
      assert q < p ==> !LinkAt(t, q);
    }
    StraightWalk(t, [], p, DEPTH);
  }

  /** An entry of a directory with no link above it resolves from there. */
  lemma ResolvesFrom(t: Tree, home: Path, n: Name)
    requires IsDir(t, home) && forall k | 0 <= k < |home| :: home[k] != UP
    ensures Resolve(t, home + [n]) == Walk(t, home, [n], DEPTH)
  {
    assert [] + home == home;
    forall q | [] < q && q <= home ensures LinkText(t, q).None? {
      if q < home { FoundThroughDirectories(t, home, q); } else { assert q == home; }
    }
    StraightWalk(t, [], home, DEPTH);
    WalkSplits(t, [], home, [n], DEPTH);
  }

  // ---- the same walk in a workspace of another name ----

  /** The same place, but for the name of a workspace it is in. */
  ghost predicate Same(wa: Path, wb: Path, p: Path, q: Path) {
    (Ordinary(p) && p == q) || exists r: Path :: Ordinary(r) && p == wa + r && q == wb + r
  }

  /** The same links outside both workspaces, and in them. */
  ghost predicate Mirrors(a: Tree, b: Tree, wa: Path, wb: Path) {
    && wa != [] && wb != [] && Parent(wa) == Parent(wb) && Ordinary(Parent(wa))
    && LinksAlike(a, b) && forall r: Path | Ordinary(r) :: LinkText(a, wa + r) == LinkText(b, wb + r)
  }

  lemma SameUp(wa: Path, wb: Path, p: Path, q: Path)
    requires wa != [] && wb != [] && Parent(wa) == Parent(wb) && Ordinary(Parent(wa)) && Same(wa, wb, p, q)
    ensures Same(wa, wb, if p == [] then [] else Parent(p), if q == [] then [] else Parent(q))
  {
    if !(Ordinary(p) && p == q) {
      var r: Path :| Ordinary(r) && p == wa + r && q == wb + r;
      if r == [] {
        assert p == wa && q == wb;
      } else {
        assert Parent(p) == wa + Parent(r) && Parent(q) == wb + Parent(r) && Ordinary(Parent(r));
      }
    }
  }

  lemma SameDown(wa: Path, wb: Path, p: Path, q: Path, n: Name)
    requires Same(wa, wb, p, q) && OwnName(n)
    ensures Same(wa, wb, p + [n], q + [n])
  {
    if !(Ordinary(p) && p == q) {
      var r: Path :| Ordinary(r) && p == wa + r && q == wb + r;
      assert p + [n] == wa + (r + [n]) && q + [n] == wb + (r + [n]) && Ordinary(r + [n]);
    }
  }

  lemma SameLink(a: Tree, b: Tree, wa: Path, wb: Path, p: Path, q: Path)
    requires Mirrors(a, b, wa, wb) && Same(wa, wb, p, q) && p != [] && q != []
    ensures LinkText(a, p) == LinkText(b, q)
  {
    if Ordinary(p) && p == q { assert OwnNames(p); }
  }

  /** Both walks are at the same place, or neither got anywhere. */
  ghost predicate Together(wa: Path, wb: Path, x: Option<Path>, y: Option<Path>) {
    x.Some? == y.Some? && (x.Some? ==> Same(wa, wb, x.value, y.value))
  }

  lemma {:induction false} WalkMirrored(a: Tree, b: Tree, wa: Path, wb: Path, p: Path, q: Path, parts: Path, depth: nat)
    requires Mirrors(a, b, wa, wb) && Same(wa, wb, p, q) && AllNamed(parts)
    ensures Together(wa, wb, Walk(a, p, parts, depth), Walk(b, q, parts, depth))
    decreases depth, |parts|, 1
  {
    if parts != [] {
      if parts[0] == UP {
        SameUp(wa, wb, p, q);
        WalkMirrored(a, b, wa, wb, if p == [] then [] else Parent(p), if q == [] then [] else Parent(q), parts[1..], depth);
      } else {
        SameDown(wa, wb, p, q, parts[0]);
        SameLink(a, b, wa, wb, p + [parts[0]], q + [parts[0]]);
        if LinkText(a, p + [parts[0]]).None? {
          WalkMirrored(a, b, wa, wb, p + [parts[0]], q + [parts[0]], parts[1..], depth);
        } else if depth > 0 {
          LinkMirrored(a, b, wa, wb, p, q, parts, depth);
        }
      }
    }
  }

  /** Through a link, and on from where it leads. */
  lemma {:induction false} LinkMirrored(a: Tree, b: Tree, wa: Path, wb: Path, p: Path, q: Path, parts: Path, depth: nat)
    requires Mirrors(a, b, wa, wb) && Same(wa, wb, p, q) && AllNamed(parts) && parts != [] && parts[0] != UP && depth > 0
    requires LinkText(a, p + [parts[0]]).Some? && LinkText(a, p + [parts[0]]) == LinkText(b, q + [parts[0]])
    ensures Together(wa, wb, Walk(a, p, parts, depth), Walk(b, q, parts, depth))
    decreases depth, |parts|, 0
  {
    var text := LinkText(a, p + [parts[0]]).value;
    var u, v := if Absolute(text) then [] else p, if Absolute(text) then [] else q;
    PartsAreNamed(text);
    assert Same(wa, wb, u, v);
    WalkMirrored(a, b, wa, wb, u, v, PartsOf(text), depth - 1);
    var x, y := Walk(a, u, PartsOf(text), depth - 1), Walk(b, v, PartsOf(text), depth - 1);
    if x.Some? { WalkMirrored(a, b, wa, wb, x.value, y.value, parts[1..], depth); }
  }

  /** What a workspace holds can be read or not whatever the workspace is called. */
  lemma ReadsMirrored(a: Tree, b: Tree, wa: Path, wb: Path, n: Name)
    requires Mirrors(a, b, wa, wb) && IsDir(a, wa) && IsDir(b, wb) && OwnName(n)
    requires wa[|wa| - 1] != UP && wb[|wb| - 1] != UP
    ensures Reads(a, wa + [n]) <==> Reads(b, wb + [n])
  {
    assert wa + [] == wa && wb + [] == wb && Ordinary([]);
    assert Same(wa, wb, wa, wb);
    assert forall k | 0 <= k < |wa| - 1 :: wa[k] == Parent(wa)[k] && wa[k] != UP;
    assert forall k | 0 <= k < |wb| - 1 :: wb[k] == Parent(wb)[k] && wb[k] != UP;
    ResolvesFrom(a, wa, n);
    ResolvesFrom(b, wb, n);
    WalkMirrored(a, b, wa, wb, wa, wb, [n], DEPTH);
  }

  /** An entry that is no link can be read. */
  lemma EntryReads(t: Tree, home: Path, n: Name)
    requires IsDir(t, home) && (forall k | 0 <= k < |home| :: home[k] != UP) && n != UP
    requires LinkText(t, home + [n]).None?
    ensures Reads(t, home + [n])
  {
    ResolvesFrom(t, home, n);
    assert [n][1..] == [];
  }

  /** The nodes in a directory. */
  ghost function NodesIn(t: Tree, home: Path): map<Name, Node>
    requires IsDir(t, home)
  {
    PathState(Lookup(t, home).value).entries
  }

  lemma SameNodesSameLinks(a: Tree, b: Tree, wa: Path, wb: Path, r: Path)
    requires IsDir(a, wa) && IsDir(b, wb) && NodesIn(a, wa) == NodesIn(b, wb)
    ensures LinkText(a, wa + r) == LinkText(b, wb + r)
  {
    LookupSplit(a, wa, r);
    LookupSplit(b, wb, r);
    if r != [] {
      var x, y := Lookup(a, wa).value.entries, Lookup(b, wb).value.entries;
      assert x.Keys == NodesIn(a, wa).Keys && y.Keys == NodesIn(b, wb).Keys;
      if r[0] in x {
        assert PathState(x[r[0]]) == NodesIn(a, wa)[r[0]] == PathState(y[r[0]]);
        SameStateSameLinks(x[r[0]], y[r[0]], r[1..]);
      }
    }
  }

  /** Workspaces of the same nodes, beside the same links, can be read alike. */
  lemma WorkMirrored(a: Tree, b: Tree, wa: Path, wb: Path, n: Name)
    requires wa != [] && wb != [] && Parent(wa) == Parent(wb) && Ordinary(Parent(wa)) && LinksAlike(a, b)
    requires wa[|wa| - 1] != UP && wb[|wb| - 1] != UP && OwnName(n)
    requires IsDir(a, wa) && IsDir(b, wb) && NodesIn(a, wa) == NodesIn(b, wb)
    ensures Reads(a, wa + [n]) <==> Reads(b, wb + [n])
  {
    forall r: Path | Ordinary(r) ensures LinkText(a, wa + r) == LinkText(b, wb + r) {
      SameNodesSameLinks(a, b, wa, wb, r);
    }
    ReadsMirrored(a, b, wa, wb, n);
  }

  // ---- the links a walk comes to ----

  /** Where a walk looks for a link. */
  ghost function Asked(t: Tree, base: Path, parts: Path, depth: nat): set<Path>
    decreases depth, |parts|
  {
    if parts == [] then {}
    else if parts[0] == UP then Asked(t, if base == [] then [] else Parent(base), parts[1..], depth)
    else
      var next := base + [parts[0]];
      var text := LinkText(t, next);
      {next} +
      if text.None? then Asked(t, next, parts[1..], depth)
      else if depth == 0 then {}
      else
        var start := if Absolute(text.value) then [] else base;
        var there := Walk(t, start, PartsOf(text.value), depth - 1);
        Asked(t, start, PartsOf(text.value), depth - 1)
        + if there.None? then {} else Asked(t, there.value, parts[1..], depth)
  }

  ghost function AskedFor(t: Tree, p: Path): set<Path> {
    Asked(t, [], p, DEPTH)
  }

  /** Only the links it looks at decide a walk. */
  lemma {:induction false} WalkByAsked(a: Tree, b: Tree, base: Path, parts: Path, depth: nat)
    requires forall q | q in Asked(a, base, parts, depth) :: LinkText(a, q) == LinkText(b, q)
    ensures Walk(a, base, parts, depth) == Walk(b, base, parts, depth)
    decreases depth, |parts|
  {
    if parts != [] {
      if parts[0] == UP {
        WalkByAsked(a, b, if base == [] then [] else Parent(base), parts[1..], depth);
      } else {
        var next := base + [parts[0]];
        assert next in Asked(a, base, parts, depth);
        var text := LinkText(a, next);
        if text.None? {
          WalkByAsked(a, b, next, parts[1..], depth);
        } else if depth > 0 {
          var start := if Absolute(text.value) then [] else base;
          WalkByAsked(a, b, start, PartsOf(text.value), depth - 1);
          var there := Walk(a, start, PartsOf(text.value), depth - 1);
          if there.Some? { WalkByAsked(a, b, there.value, parts[1..], depth); }
        }
      }
    }
  }
}
