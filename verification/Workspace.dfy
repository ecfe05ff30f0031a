/** Which workspace archives are accepted. */
module Workspace {
  import opened Collections
  import opened Paths

  datatype Kind = File | Directory | Symlink | Hardlink | Fifo | Device | Other

  datatype Entry = Entry(name: string, kind: Kind, link: string)

  type Table = map<Path, Entry>

  predicate Special(k: Kind)
  {
    k == Fifo || k == Device
  }

  /** p is a directory above q. */
  predicate Above(p: Path, q: Path)
  {
    |p| < |q| && q[..|p|] == p
  }

  // ---- hardlink chains ----

  /** Following hardlinks from t, the n-th step is a regular file. */
  predicate Leads(tab: Table, t: Path, n: nat)
    decreases n
  {
    && t in tab
    && if n == 0 then tab[t].kind == File
       else tab[t].kind == Hardlink && SafeTarPath(tab[t].link).Ok? && Leads(tab, SafeTarPath(tab[t].link).path, n - 1)
  }

  ghost predicate EndsAtFile(tab: Table, t: Path)
  {
    exists n: nat :: Leads(tab, t, n)
  }

  lemma {:induction false} LeadsUnique(tab: Table, t: Path, n: nat, m: nat)
    requires Leads(tab, t, n) && Leads(tab, t, m)
    ensures n == m
    decreases n
  {
    if n > 0 && m > 0 {
      LeadsUnique(tab, SafeTarPath(tab[t].link).path, n - 1, m - 1);
    }
  }

  /** The trail of a walk: every member but the last is a hardlink to the next. */
  predicate Walk(tab: Table, trail: seq<Path>)
  {
    && trail != []
    && forall i | 0 <= i < |trail| - 1 :: Hops(tab, trail[i], trail[i + 1])
  }

  predicate Hops(tab: Table, t: Path, u: Path)
  {
    t in tab && tab[t].kind == Hardlink && SafeTarPath(tab[t].link) == Ok(u)
  }

  lemma {:induction false} WalkLeads(tab: Table, trail: seq<Path>, k: nat, n: nat)
    requires Walk(tab, trail) && k < |trail| && Leads(tab, trail[0], n)
    ensures n >= k && Leads(tab, trail[k], n - k)
  {
    if k > 0 {
      WalkLeads(tab, trail, k - 1, n);
      assert Hops(tab, trail[k - 1], trail[k]);
    }
  }

  lemma {:induction false} WalkEnds(tab: Table, trail: seq<Path>, k: nat)
    requires Walk(tab, trail) && k < |trail| && EndsAtFile(tab, trail[|trail| - 1 - k])
    ensures EndsAtFile(tab, trail[0])
    decreases |trail| - k
  {
    var i := |trail| - 1 - k;
    if i > 0 {
      assert Hops(tab, trail[i - 1], trail[i]);
      var n: nat :| Leads(tab, trail[i], n);
      assert Leads(tab, trail[i - 1], n + 1);
      WalkEnds(tab, trail, k + 1);
    }
  }

  /** A walk that comes back to a place it has been never ends at a file. */
  lemma CycleNeverEnds(tab: Table, trail: seq<Path>, j: nat)
    requires Walk(tab, trail) && j < |trail| - 1 && trail[j] == trail[|trail| - 1]
    ensures !EndsAtFile(tab, trail[0])
  {
    if n: nat :| Leads(tab, trail[0], n) {
      WalkLeads(tab, trail, j, n);
      WalkLeads(tab, trail, |trail| - 1, n);
      LeadsUnique(tab, trail[j], n - j, n - (|trail| - 1));
      assert false;
    }
  }

  /** The target is no regular file and no hardlink to follow. */
  lemma DeadEnd(tab: Table, trail: seq<Path>)
    requires Walk(tab, trail)
    requires var t := trail[|trail| - 1];
      t !in tab || tab[t].kind != Hardlink || SafeTarPath(tab[t].link) == Unsafe
    ensures var t := trail[|trail| - 1]; EndsAtFile(tab, trail[0]) <==> t in tab && tab[t].kind == File
  {
    var t := trail[|trail| - 1];
    if n: nat :| Leads(tab, trail[0], n) {
      WalkLeads(tab, trail, |trail| - 1, n);
    }
    if t in tab && tab[t].kind == File {
      assert Leads(tab, t, 0);
      WalkEnds(tab, trail, 0);
    }
  }

  /** The hardlink loop: it ends on every table, and accepts exactly the entries whose
      chain ends at a regular file. */
  method FollowHardlink(tab: Table, start: Path) returns (ok: bool)
    requires start in tab && tab[start].kind == Hardlink
    ensures ok <==> EndsAtFile(tab, start)
  {
    ghost var trail := [start];
    var first := CleanName(tab[start].link);
    if first == Unsafe {
      DeadEnd(tab, trail);
      return false;
    }
    var target := first.path;
    var seen := {start};
    trail := [start, target];
    assert Hops(tab, start, target);
    while target in tab && tab[target].kind == Hardlink
      invariant Walk(tab, trail) && |trail| >= 2 && trail[0] == start && trail[|trail| - 1] == target
      invariant seen <= tab.Keys && forall q | q in seen :: q in trail[..|trail| - 1]
      decreases |tab.Keys - seen|
    {
      if target in seen {
        ghost var j :| 0 <= j < |trail| - 1 && trail[j] == target;
        CycleNeverEnds(tab, trail, j);
        return false;
      }
      var next := CleanName(tab[target].link);
      if next == Unsafe {
        DeadEnd(tab, trail);
        return false;
      }
      assert Hops(tab, target, next.path);
      assert tab.Keys - (seen + {target}) == (tab.Keys - seen) - {target};
      ghost var longer := trail + [next.path];
      WalkLonger(tab, trail, next.path);
      assert longer[..|longer| - 1] == trail;
      seen := seen + {target};
      target := next.path;
      trail := longer;
    }
    DeadEnd(tab, trail);
    return target in tab && tab[target].kind == File;
  }

  lemma WalkLonger(tab: Table, trail: seq<Path>, u: Path)
    requires Walk(tab, trail) && Hops(tab, trail[|trail| - 1], u)
    ensures Walk(tab, trail + [u])
  {
    var t := trail + [u];
    forall i | 0 <= i < |t| - 1 ensures Hops(tab, t[i], t[i + 1]) {
      assert i < |trail| - 1 ==> Hops(tab, trail[i], trail[i + 1]);
    }
  }

  // ---- whole archives ----

  predicate Named(e: Entry)
  {
    SafeTarPath(e.name).Ok?
  }

  /** The first n entries: named, all different, none special. */
  predicate NamedUpTo(es: seq<Entry>, n: nat)
  {
    n <= |es| && forall i | 0 <= i < n :: Named(es[i])
  }

  predicate AllNamed(es: seq<Entry>)
  {
    NamedUpTo(es, |es|)
  }

  function PathOf(e: Entry): Path
    requires Named(e)
  {
    SafeTarPath(e.name).path
  }

  predicate UniqueUpTo(es: seq<Entry>, n: nat)
    requires NamedUpTo(es, n)
  {
    forall i, j | 0 <= i < j < n :: PathOf(es[i]) != PathOf(es[j])
  }

  predicate PlainUpTo(es: seq<Entry>, n: nat)
  {
    n <= |es| && forall i | 0 <= i < n :: !Special(es[i].kind)
  }

  function TableUpTo(es: seq<Entry>, n: nat): Table
    requires NamedUpTo(es, n)
  {
    if n == 0 then map[] else TableUpTo(es, n - 1)[PathOf(es[n - 1]) := es[n - 1]]
  }

  function TableOf(es: seq<Entry>): Table
    requires AllNamed(es)
  {
    TableUpTo(es, |es|)
  }

  predicate LinkInside(e: Entry)
    requires Named(e)
  {
    e.kind == Symlink ==> ResolveLink(PathOf(e), e.link).Ok?
  }

  predicate NotBelow(e: Entry, link: Entry)
    requires Named(e) && Named(link)
  {
    link.kind == Symlink ==> !Above(PathOf(link), PathOf(e))
  }

  ghost predicate ChainEnds(tab: Table, e: Entry)
    requires Named(e)
  {
    e.kind == Hardlink ==> EndsAtFile(tab, PathOf(e))
  }

  /** Clean and distinct names, no special files, symlinks that stay inside, nothing
      below a symlink, and every hardlink chain ending at a regular file. */
  ghost predicate Acceptable(es: seq<Entry>)
  {
    && AllNamed(es) && UniqueUpTo(es, |es|) && PlainUpTo(es, |es|)
    && (forall i | 0 <= i < |es| :: LinkInside(es[i]))
    && (forall i, j | 0 <= i < |es| && 0 <= j < |es| :: NotBelow(es[i], es[j]))
    && (forall i | 0 <= i < |es| :: ChainEnds(TableOf(es), es[i]))
  }

  lemma {:induction false} TableEntry(es: seq<Entry>, n: nat, p: Path) returns (i: nat)
    requires NamedUpTo(es, n) && p in TableUpTo(es, n)
    ensures i < n && PathOf(es[i]) == p
  {
    if PathOf(es[n - 1]) == p {
      i := n - 1;
    } else {
      i := TableEntry(es, n - 1, p);
    }
  }

  lemma {:induction false} TableHolds(es: seq<Entry>, n: nat, i: nat)
    requires NamedUpTo(es, n) && UniqueUpTo(es, n) && i < n
    ensures PathOf(es[i]) in TableUpTo(es, n) && TableUpTo(es, n)[PathOf(es[i])] == es[i]
  {
    if i < n - 1 {
      TableHolds(es, n - 1, i);
    }
  }

  lemma TableMembers(es: seq<Entry>, n: nat, p: Path)
    requires NamedUpTo(es, n) && UniqueUpTo(es, n)
    ensures p in TableUpTo(es, n) <==> exists i | 0 <= i < n :: PathOf(es[i]) == p
    ensures forall i | 0 <= i < n && PathOf(es[i]) == p :: p in TableUpTo(es, n) && TableUpTo(es, n)[p] == es[i]
  {
    if p in TableUpTo(es, n) {
      var i := TableEntry(es, n, p);
    }
    forall i | 0 <= i < n && PathOf(es[i]) == p ensures p in TableUpTo(es, n) && TableUpTo(es, n)[p] == es[i] {
      TableHolds(es, n, i);
    }
  }

  /** First loop: clean names, no repeats, no special files. */
  method BuildTable(es: seq<Entry>) returns (ok: bool, tab: Table)
    ensures ok <==> AllNamed(es) && UniqueUpTo(es, |es|) && PlainUpTo(es, |es|)
    ensures ok ==> tab == TableOf(es)
  {
    tab := map[];
    for i := 0 to |es|
      invariant NamedUpTo(es, i) && UniqueUpTo(es, i) && PlainUpTo(es, i)
      invariant tab == TableUpTo(es, i)
    {
      var e := es[i];
      var path := CleanName(e.name);
      if path == Unsafe {
        assert !Named(es[i]);
        return false, tab;
      }
      TableMembers(es, i, path.path);
      if path.path in tab {
        return false, tab;
      }
      if Special(e.kind) {
        return false, tab;
      }
      tab := tab[path.path := e];
    }
    return true, tab;
  }

  /** Some directory above p is a symlink. */
  method BelowSymlink(p: Path, symlinks: set<Path>) returns (below: bool)
    ensures below <==> exists q | q in symlinks :: Above(q, p)
  {
    below := false;
    for n := 0 to |p|
      invariant below <==> exists q | q in symlinks :: Above(q, p) && |q| < n
    {
      if p[..n] in symlinks {
        assert Above(p[..n], p);
        below := true;
      }
    }
  }

  predicate IsLinkAt(es: seq<Entry>, j: nat, q: Path)
    requires AllNamed(es)
  {
    j < |es| && es[j].kind == Symlink && PathOf(es[j]) == q
  }

  ghost predicate AreSymlinks(es: seq<Entry>, n: nat, qs: set<Path>)
    requires AllNamed(es)
  {
    && (forall q | q in qs :: exists j: nat :: j < n && IsLinkAt(es, j, q))
    && (forall j: nat, q: Path | j < n && IsLinkAt(es, j, q) :: q in qs)
  }

  lemma AreSymlinksNext(es: seq<Entry>, i: nat, qs: set<Path>)
    requires i < |es| && AllNamed(es) && AreSymlinks(es, i, qs)
    ensures AreSymlinks(es, i + 1, if es[i].kind == Symlink then qs + {PathOf(es[i])} else qs)
  {
    if es[i].kind == Symlink {
      assert IsLinkAt(es, i, PathOf(es[i]));
    }
    forall q | q in qs ensures exists j: nat :: j < i + 1 && IsLinkAt(es, j, q) {
      var j: nat :| j < i && IsLinkAt(es, j, q);
      assert j < i + 1;
    }
  }

  /** Second loop: the symlinks, each resolving inside the workspace. */
  method CollectSymlinks(es: seq<Entry>) returns (ok: bool, symlinks: set<Path>)
    requires AllNamed(es)
    ensures ok <==> forall i | 0 <= i < |es| :: LinkInside(es[i])
    ensures ok ==> AreSymlinks(es, |es|, symlinks)
  {
    symlinks := {};
    for i := 0 to |es|
      invariant forall k | 0 <= k < i :: LinkInside(es[k])
      invariant AreSymlinks(es, i, symlinks)
    {
      AreSymlinksNext(es, i, symlinks);
      if es[i].kind == Symlink {
        if ResolveLink(PathOf(es[i]), es[i].link) == Unsafe {
          assert !LinkInside(es[i]);
          return false, symlinks;
        }
        symlinks := symlinks + {PathOf(es[i])};
      }
    }
    return true, symlinks;
  }

  /** Third loop: nothing below a symlink. */
  method NothingBelow(es: seq<Entry>, symlinks: set<Path>) returns (ok: bool)
    requires AllNamed(es) && AreSymlinks(es, |es|, symlinks)
    ensures ok <==> forall i, j | 0 <= i < |es| && 0 <= j < |es| :: NotBelow(es[i], es[j])
  {
    for i := 0 to |es|
      invariant forall k, j | 0 <= k < i && 0 <= j < |es| :: NotBelow(es[k], es[j])
    {
      var below := BelowSymlink(PathOf(es[i]), symlinks);
      if below {
        ghost var q :| q in symlinks && Above(q, PathOf(es[i]));
        ghost var j: nat :| j < |es| && IsLinkAt(es, j, q);
        assert !NotBelow(es[i], es[j]);
        return false;
      }
      forall j: nat | j < |es| ensures NotBelow(es[i], es[j]) {
        assert es[j].kind == Symlink ==> IsLinkAt(es, j, PathOf(es[j]));
      }
    }
    return true;
  }

  /** Last loop: every hardlink. */
  method CheckHardlinks(es: seq<Entry>, tab: Table) returns (ok: bool)
    requires AllNamed(es) && UniqueUpTo(es, |es|) && tab == TableOf(es)
    ensures ok <==> forall i | 0 <= i < |es| :: ChainEnds(tab, es[i])
  {
    for i := 0 to |es|
      invariant forall k | 0 <= k < i :: ChainEnds(tab, es[k])
    {
      if es[i].kind == Hardlink {
        TableMembers(es, |es|, PathOf(es[i]));
        var ends := FollowHardlink(tab, PathOf(es[i]));
        if !ends {
          assert !ChainEnds(tab, es[i]);
          return false;
        }
      }
    }
    return true;
  }

  // ---- what an acceptable archive is, entry by entry ----

  ghost predicate NameOk(name: string)
  {
    !Rooted(name) && (forall i: nat :: !UpAt(name, i)) && '\0' !in name
  }

  /** The place a name stands for. */
  ghost function Place(name: string): Path
  {
    Components(Slashes(name))
  }

  /** p is a directory on the way to q. */
  ghost predicate OnTheWay(p: Path, q: Path)
  {
    |p| < |q| && forall i | 0 <= i < |p| :: p[i] == q[i]
  }

  /** Entries that each link to the next, the last of them a regular file. */
  ghost predicate ChainToFile(es: seq<Entry>, trail: seq<nat>)
  {
    && trail != [] && (forall k | 0 <= k < |trail| :: trail[k] < |es|)
    && (forall k | 0 <= k < |trail| - 1 ::
          && es[trail[k]].kind == Hardlink && NameOk(es[trail[k]].link)
          && Place(es[trail[k]].link) == Place(es[trail[k + 1]].name))
    && es[trail[|trail| - 1]].kind == File
  }

  ghost predicate ReachesFile(es: seq<Entry>, i: nat)
  {
    exists trail: seq<nat> :: ChainToFile(es, trail) && trail[0] == i
  }

  ghost predicate LinkOk(e: Entry)
  {
    && e.link != "" && '\0' !in e.link && !Slash(e.link[0])
    && !Leaves(Parent(Place(e.name)) + Place(e.link))
  }

  /** Names that are relative, without ".." and NUL, and stand for different places; no fifo
      and no device; symlinks that are relative and never leave the workspace; nothing on a
      way that leads through a symlink; hardlinks that lead to a regular file. */
  ghost predicate Wholesome(es: seq<Entry>)
  {
    && (forall i | 0 <= i < |es| :: NameOk(es[i].name))
    && (forall i, j | 0 <= i < j < |es| :: Place(es[i].name) != Place(es[j].name))
    && (forall i | 0 <= i < |es| :: es[i].kind !in {Fifo, Device})
    && (forall i | 0 <= i < |es| && es[i].kind == Symlink :: LinkOk(es[i]))
    && (forall i, j | 0 <= i < |es| && 0 <= j < |es| && es[j].kind == Symlink ::
          !OnTheWay(Place(es[j].name), Place(es[i].name)))
    && (forall i: nat | i < |es| && es[i].kind == Hardlink :: ReachesFile(es, i))
  }

  lemma NameExact(name: string)
    ensures SafeTarPath(name).Ok? <==> NameOk(name)
    ensures NameOk(name) ==> SafeTarPath(name) == Ok(Place(name))
  {
    SafeExact(name);
    if SafeTarPath(name).Ok? {
      SafeIsParts(name);
    }
  }

  lemma PlaceOf(e: Entry)
    ensures Named(e) <==> NameOk(e.name)
    ensures Named(e) ==> PathOf(e) == Place(e.name) && Proper(PathOf(e))
  {
    NameExact(e.name);
    if Named(e) {
      SafeIsProper(e.name);
    }
  }

  lemma LinkExact(e: Entry)
    requires Named(e)
    ensures ResolveLink(PathOf(e), e.link).Ok? <==> LinkOk(e)
  {
    PlaceOf(e);
    ResolveExact(PathOf(e), e.link);
  }

  lemma AboveExact(p: Path, q: Path)
    ensures Above(p, q) <==> OnTheWay(p, q)
  {
  }

  lemma ChainShorter(es: seq<Entry>, trail: seq<nat>)
    requires ChainToFile(es, trail) && |trail| > 1
    ensures ChainToFile(es, trail[1..])
  {
    var rest := trail[1..];
    forall k | 0 <= k < |rest| - 1
      ensures es[rest[k]].kind == Hardlink && NameOk(es[rest[k]].link) && Place(es[rest[k]].link) == Place(es[rest[k + 1]].name)
    {
      assert rest[k] == trail[k + 1] && rest[k + 1] == trail[k + 2];
    }
  }

  lemma LeadsOneMore(es: seq<Entry>, tab: Table, i: nat, j: nat, n: nat)
    requires AllNamed(es) && UniqueUpTo(es, |es|) && i < |es| && j < |es| && tab == TableOf(es)
    requires es[i].kind == Hardlink && NameOk(es[i].link) && Place(es[i].link) == Place(es[j].name)
    requires Leads(tab, PathOf(es[j]), n)
    ensures Leads(tab, PathOf(es[i]), n + 1)
  {
    TableMembers(es, |es|, PathOf(es[i]));
    NameExact(es[i].link);
    PlaceOf(es[j]);
  }

  /** From a chain of entries to a chain in the table. */
  lemma {:induction false} TrailLeads(es: seq<Entry>, tab: Table, trail: seq<nat>)
    requires AllNamed(es) && UniqueUpTo(es, |es|) && ChainToFile(es, trail) && tab == TableOf(es)
    ensures Leads(tab, PathOf(es[trail[0]]), |trail| - 1)
  {
    if |trail| == 1 {
      TableMembers(es, |es|, PathOf(es[trail[0]]));
    } else {
      ChainShorter(es, trail);
      TrailLeads(es, tab, trail[1..]);
      LeadsOneMore(es, tab, trail[0], trail[1], |trail| - 2);
    }
  }

  /** A link that leads to a file has a next entry that leads there in one step less. */
  lemma NextEntry(es: seq<Entry>, tab: Table, i: nat, n: nat) returns (j: nat)
    requires AllNamed(es) && UniqueUpTo(es, |es|) && i < |es| && tab == TableOf(es) && Leads(tab, PathOf(es[i]), n) && n > 0
    ensures j < |es| && es[i].kind == Hardlink && NameOk(es[i].link) && Place(es[i].link) == Place(es[j].name)
    ensures Leads(tab, PathOf(es[j]), n - 1)
  {
    TableMembers(es, |es|, PathOf(es[i]));
    NameExact(es[i].link);
    j := TableEntry(es, |es|, SafeTarPath(es[i].link).path);
    PlaceOf(es[j]);
  }

  /** And back. */
  lemma {:induction false} LeadsTrail(es: seq<Entry>, tab: Table, i: nat, n: nat) returns (trail: seq<nat>)
    requires AllNamed(es) && UniqueUpTo(es, |es|) && i < |es| && tab == TableOf(es) && Leads(tab, PathOf(es[i]), n)
    ensures ChainToFile(es, trail) && trail[0] == i
    decreases n
  {
    if n == 0 {
      TableMembers(es, |es|, PathOf(es[i]));
      trail := [i];
    } else {
      var j := NextEntry(es, tab, i, n);
      var rest := LeadsTrail(es, tab, j, n - 1);
      trail := [i] + rest;
      ChainLonger(es, i, rest);
    }
  }

  lemma ChainLonger(es: seq<Entry>, i: nat, rest: seq<nat>)
    requires i < |es| && ChainToFile(es, rest) && es[i].kind == Hardlink && NameOk(es[i].link)
    requires Place(es[i].link) == Place(es[rest[0]].name)
    ensures ChainToFile(es, [i] + rest)
  {
    var trail := [i] + rest;
    forall k | 0 <= k < |trail| - 1
      ensures es[trail[k]].kind == Hardlink && NameOk(es[trail[k]].link) && Place(es[trail[k]].link) == Place(es[trail[k + 1]].name)
    {
      if k > 0 {
        assert trail[k] == rest[k - 1] && trail[k + 1] == rest[k];
      }
    }
  }

  lemma ChainExact(es: seq<Entry>, i: nat)
    requires AllNamed(es) && UniqueUpTo(es, |es|) && i < |es|
    ensures EndsAtFile(TableOf(es), PathOf(es[i])) <==> ReachesFile(es, i)
  {
    if n: nat :| Leads(TableOf(es), PathOf(es[i]), n) {
      var trail := LeadsTrail(es, TableOf(es), i, n);
    }
    if trail: seq<nat> :| ChainToFile(es, trail) && trail[0] == i {
      TrailLeads(es, TableOf(es), trail);
    }
  }

  lemma NamesExact(es: seq<Entry>)
    ensures AllNamed(es) <==> forall i | 0 <= i < |es| :: NameOk(es[i].name)
    ensures AllNamed(es) ==>
      (UniqueUpTo(es, |es|) <==> forall i, j | 0 <= i < j < |es| :: Place(es[i].name) != Place(es[j].name))
  {
    forall i | 0 <= i < |es|
      ensures Named(es[i]) <==> NameOk(es[i].name)
      ensures Named(es[i]) ==> PathOf(es[i]) == Place(es[i].name)
    {
      PlaceOf(es[i]);
    }
  }

  lemma LinksExact(es: seq<Entry>)
    requires AllNamed(es)
    ensures (forall i | 0 <= i < |es| :: LinkInside(es[i])) <==> forall i | 0 <= i < |es| && es[i].kind == Symlink :: LinkOk(es[i])
    ensures (forall i, j | 0 <= i < |es| && 0 <= j < |es| :: NotBelow(es[i], es[j])) <==>
      forall i, j | 0 <= i < |es| && 0 <= j < |es| && es[j].kind == Symlink :: !OnTheWay(Place(es[j].name), Place(es[i].name))
  {
    forall i | 0 <= i < |es|
      ensures LinkInside(es[i]) <==> (es[i].kind == Symlink ==> LinkOk(es[i]))
      ensures PathOf(es[i]) == Place(es[i].name)
    {
      LinkExact(es[i]);
      PlaceOf(es[i]);
    }
    forall i, j | 0 <= i < |es| && 0 <= j < |es|
      ensures NotBelow(es[i], es[j]) <==> (es[j].kind == Symlink ==> !OnTheWay(Place(es[j].name), Place(es[i].name)))
    {
      AboveExact(PathOf(es[j]), PathOf(es[i]));
    }
  }

  lemma ChainsExact(es: seq<Entry>)
    requires AllNamed(es) && UniqueUpTo(es, |es|)
    ensures (forall i | 0 <= i < |es| :: ChainEnds(TableOf(es), es[i]))
       <==> forall i: nat | i < |es| && es[i].kind == Hardlink :: ReachesFile(es, i)
  {
    forall i: nat | i < |es| ensures ChainEnds(TableOf(es), es[i]) <==> (es[i].kind == Hardlink ==> ReachesFile(es, i)) {
      ChainExact(es, i);
    }
  }

  /** The two descriptions of an acceptable archive agree. */
  lemma AcceptableExact(es: seq<Entry>)
    ensures Acceptable(es) <==> Wholesome(es)
  {
    NamesExact(es);
    if AllNamed(es) {
      LinksExact(es);
      if UniqueUpTo(es, |es|) {
        ChainsExact(es);
      }
    }
  }

  /** _validate_workspace_entries accepts exactly the acceptable archives, and ends on all. */
  method Validate(es: seq<Entry>) returns (ok: bool)
    ensures ok <==> Wholesome(es)
  {
    AcceptableExact(es);
    var tab: Table, symlinks: set<Path>;
    ok, tab := BuildTable(es);
    if !ok {
      return false;
    }
    ok, symlinks := CollectSymlinks(es);
    if !ok {
      return false;
    }
    ok := NothingBelow(es, symlinks);
    if !ok {
      return false;
    }
    ok := CheckHardlinks(es, tab);
  }
}
