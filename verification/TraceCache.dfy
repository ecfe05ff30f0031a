/** Memoising a parse by a fingerprint that is not taken atomically, while a writer keeps
    appending. The parser depends only on what it reads, so a trace is what was read. */
module TraceCache {
  import opened Collections

  type File = nat
  type Home = nat
  type Row = nat

  /** Session files and their rows at one instant; every file belongs to one home. */
  type Contents = map<File, seq<Row>>

  /** All instants of a run. Rows and files are only ever added. */
  type History = seq<Contents>

  ghost predicate Grows(x: Contents, y: Contents)
  {
    forall f | f in x :: f in y && x[f] <= y[f]
  }

  ghost predicate AppendOnly(h: History)
  {
    forall s, t {:trigger Grows(h[s], h[t])} | 0 <= s <= t < |h| :: Grows(h[s], h[t])
  }

  /** The files of a home, with their rows, at an instant. */
  ghost function Under(h: History, homeOf: File -> Home, home: Home, t: nat): Contents
    requires t < |h|
  {
    map f | f in h[t] && homeOf(f) == home :: h[t][f]
  }

  /** A walk over a home between two instants: it sees every file that was there when it
      began, may see later ones, and looks at each at some instant in between. */
  ghost predicate Seen(h: History, s: nat, t: nat, f: File, rows: seq<Row>)
  {
    exists i: nat | s <= i <= t && i < |h| :: f in h[i] && h[i][f] == rows
  }

  ghost predicate IsWalk(h: History, homeOf: File -> Home, home: Home, s: nat, t: nat, got: Contents)
  {
    && s <= t < |h|
    && Under(h, homeOf, home, s).Keys <= got.Keys <= Under(h, homeOf, home, t).Keys
    && forall f | f in got :: Seen(h, s, t, f, got[f])
  }

  /** The sizes a walk would note. */
  ghost function Sizes(got: Contents): map<File, nat>
  {
    map f | f in got :: |got[f]|
  }

  /** A file of the same size at two instants had the same rows at every instant between. */
  lemma Unchanged(h: History, f: File, i: nat, j: nat, k: nat)
    requires AppendOnly(h) && i <= j <= k < |h| && f in h[i] && f in h[k] && |h[i][f]| == |h[k][f]|
    ensures f in h[j] && h[j][f] == h[i][f] == h[k][f]
  {
    assert Grows(h[i], h[j]) && Grows(h[j], h[k]);
  }

  lemma FilesStay(h: History, homeOf: File -> Home, home: Home, s: nat, t: nat)
    requires AppendOnly(h) && s <= t < |h|
    ensures Under(h, homeOf, home, s).Keys <= Under(h, homeOf, home, t).Keys
  {
    assert Grows(h[s], h[t]);
  }

  /** What one call saw: a fingerprint walk, then, on a miss, a parsing walk. */
  datatype Call = Call(home: Home, from: nat, to: nat, sizes: Option<map<File, nat>>, start: nat, end: nat, got: Contents)

  /** Fingerprint and parse really happened in this order; None is a failed listing. */
  ghost predicate Happened(h: History, homeOf: File -> Home, c: Call)
  {
    && (c.sizes.Some? ==> exists w :: IsWalk(h, homeOf, c.home, c.from, c.to, w) && Sizes(w) == c.sizes.value)
    && c.from <= c.to <= c.start && IsWalk(h, homeOf, c.home, c.start, c.end, c.got)
  }

  lemma SameFileSame(h: History, f: File, a: nat, b: nat, c: nat, d: nat, e: nat, g: nat,
                     x: seq<Row>, y: seq<Row>, rows: seq<Row>)
    requires AppendOnly(h) && a <= b <= c <= d <= e <= g < |h|
    requires Seen(h, a, b, f, x) && Seen(h, e, g, f, y) && |x| == |y| && Seen(h, c, d, f, rows)
    ensures f in h[e] && h[e][f] == rows
  {
    var i: nat :| a <= i <= b && i < |h| && f in h[i] && h[i][f] == x;
    var j: nat :| e <= j <= g && j < |h| && f in h[j] && h[j][f] == y;
    var k: nat :| c <= k <= d && k < |h| && f in h[k] && h[k][f] == rows;
    Unchanged(h, f, i, k, j);
    Unchanged(h, f, i, e, j);
  }

  ghost predicate ListedBetween(h: History, homeOf: File -> Home, home: Home, s: nat, t: nat, files: set<File>)
  {
    s <= t < |h| && Under(h, homeOf, home, s).Keys <= files <= Under(h, homeOf, home, t).Keys
  }

  /** The file sets of the two fingerprints and of the parse are all the same. */
  lemma SameFiles(h: History, homeOf: File -> Home, home: Home, a: nat, b: nat, c: nat, d: nat, e: nat, g: nat,
                  files: set<File>, read: set<File>)
    requires AppendOnly(h) && b <= c && d <= e
    requires ListedBetween(h, homeOf, home, a, b, files) && ListedBetween(h, homeOf, home, c, d, read)
    requires ListedBetween(h, homeOf, home, e, g, files)
    ensures files == read == Under(h, homeOf, home, e).Keys
  {
    FilesStay(h, homeOf, home, b, c);
    FilesStay(h, homeOf, home, d, e);
  }

  lemma SameRows(h: History, homeOf: File -> Home, c: Call, from: nat, to: nat, w: Contents, w': Contents, f: File)
    requires AppendOnly(h) && c.from <= c.to <= c.start && c.end <= from
    requires IsWalk(h, homeOf, c.home, c.from, c.to, w) && IsWalk(h, homeOf, c.home, c.start, c.end, c.got)
    requires IsWalk(h, homeOf, c.home, from, to, w') && f in w && f in w' && |w[f]| == |w'[f]| && f in c.got
    ensures f in h[from] && h[from][f] == c.got[f]
  {
    SameFileSame(h, f, c.from, c.to, c.start, c.end, from, to, w[f], w'[f], c.got[f]);
  }

  lemma SameSizes(w: Contents, w': Contents)
    requires Sizes(w) == Sizes(w')
    ensures w.Keys == w'.Keys && forall f | f in w :: |w[f]| == |w'[f]|
  {
    assert w.Keys == Sizes(w).Keys == Sizes(w').Keys == w'.Keys;
    assert forall f | f in w :: Sizes(w)[f] == Sizes(w')[f];
  }

  /** Same home: a hit returns exactly the rows present when its fingerprint was begun. */
  lemma HitSameHome(h: History, homeOf: File -> Home, c: Call, from: nat, to: nat, w: Contents, w': Contents)
    requires AppendOnly(h) && c.from <= c.to <= c.start && c.end <= from
    requires IsWalk(h, homeOf, c.home, c.from, c.to, w) && IsWalk(h, homeOf, c.home, c.start, c.end, c.got)
    requires IsWalk(h, homeOf, c.home, from, to, w') && Sizes(w) == Sizes(w')
    ensures c.got == Under(h, homeOf, c.home, from)
  {
    SameSizes(w, w');
    SameFiles(h, homeOf, c.home, c.from, c.to, c.start, c.end, from, to, w.Keys, c.got.Keys);
    forall f | f in c.got ensures f in h[from] && c.got[f] == h[from][f] {
      SameRows(h, homeOf, c, from, to, w, w', f);
    }
    SameMap(c.got, Under(h, homeOf, c.home, from));
  }

  /** Different homes share a fingerprint only when it is empty. */
  lemma OtherHomeEmpty(h: History, homeOf: File -> Home, a: Home, b: Home, s: nat, t: nat, u: nat, v: nat, w: Contents, w': Contents)
    requires a != b && IsWalk(h, homeOf, a, s, t, w) && IsWalk(h, homeOf, b, u, v, w') && Sizes(w) == Sizes(w')
    ensures w == map[] && w' == map[] && Under(h, homeOf, b, u) == map[]
  {
    SameSizes(w, w');
    assert Under(h, homeOf, a, t).Keys !! Under(h, homeOf, b, v).Keys;
    assert w.Keys == {};
    assert Under(h, homeOf, b, u).Keys == {};
  }

  /** A hit agrees with a fresh parse exactly when it is for the home that filled the
      cache, or the fingerprint is not empty, or nothing was read into the cache. */
  lemma HitExact(h: History, homeOf: File -> Home, c: Call, home: Home, from: nat, to: nat, w: Contents)
    requires AppendOnly(h) && Happened(h, homeOf, c) && c.end <= from && c.sizes == Some(Sizes(w))
    requires IsWalk(h, homeOf, home, from, to, w)
    ensures c.got == Under(h, homeOf, home, from) <==> c.home == home || w != map[] || c.got == map[]
  {
    var w0 :| IsWalk(h, homeOf, c.home, c.from, c.to, w0) && Sizes(w0) == c.sizes.value;
    if c.home == home {
      HitSameHome(h, homeOf, c, from, to, w0, w);
    } else {
      OtherHomeEmpty(h, homeOf, c.home, home, c.from, c.to, from, to, w0, w);
    }
  }

  /** The empty fingerprint of one home, taken just before its first file appears, answers
      for another home that has no file at all. */
  lemma EmptyFingerprintConfuses(homeOf: File -> Home, f: File, row: Row, home: Home)
    requires homeOf(f) != home
    ensures var h: History := [map[], map[f := [row]]];
      var c := Call(homeOf(f), 0, 0, Some(map[]), 1, 1, map[f := [row]]);
      && AppendOnly(h) && Happened(h, homeOf, c) && IsWalk(h, homeOf, home, 1, 1, map[]) && c.sizes == Some(Sizes(map[]))
      && c.got != Under(h, homeOf, home, 1)
  {
    var h: History := [map[], map[f := [row]]];
    assert f in h[1] && h[1][f] == [row];
    assert Seen(h, 1, 1, f, [row]);
    assert Under(h, homeOf, homeOf(f), 0) == map[];
    assert Under(h, homeOf, homeOf(f), 1) == map[f := [row]];
    assert Under(h, homeOf, home, 1) == map[];
    assert IsWalk(h, homeOf, homeOf(f), 0, 0, map[]);
    var none: Contents := map[];
    assert Sizes(none) == map[];
  }

  // ---- the agent's cache ----

  class Tracer {
    var cached: Option<(map<File, nat>, Contents)>
    ghost var filled: Option<Call>

    /** The cache holds what some earlier call read after taking its fingerprint. */
    ghost predicate Valid(h: History, homeOf: File -> Home, now: nat)
      reads this
    {
      && (cached.Some? <==> filled.Some?)
      && (cached.Some? ==>
            && Happened(h, homeOf, filled.value) && filled.value.end <= now
            && filled.value.sizes == Some(cached.value.0) && filled.value.got == cached.value.1)
    }

    constructor ()
      ensures cached == None && filled == None
    {
      cached, filled := None, None;
    }

    /** _trace: on equal fingerprints the cached trace, otherwise a fresh one. A hit for the
        home that filled the cache, or with any file at all, is what a fresh parse would
        have found when the fingerprint was begun. */
    method Trace(ghost h: History, ghost homeOf: File -> Home, c: Call) returns (trace: Contents, hit: bool)
      requires AppendOnly(h) && Happened(h, homeOf, c) && Valid(h, homeOf, c.from)
      modifies this
      ensures Valid(h, homeOf, c.end)
      ensures hit <==> old(cached).Some? && c.sizes == Some(old(cached).value.0)
      ensures trace == if hit then old(cached).value.1 else c.got
      ensures cached == if !hit && c.sizes.Some? then Some((c.sizes.value, c.got)) else old(cached)
      ensures hit && (old(filled).value.home == c.home || c.sizes != Some(map[])) ==> trace == Under(h, homeOf, c.home, c.from)
    {
      hit := cached.Some? && c.sizes.Some? && cached.value.0 == c.sizes.value;
      if hit {
        trace := cached.value.1;
        ghost var w :| IsWalk(h, homeOf, c.home, c.from, c.to, w) && Sizes(w) == c.sizes.value;
        HitExact(h, homeOf, filled.value, c.home, c.from, c.to, w);
        assert w == map[] ==> Sizes(w) == map[];
      } else {
        trace := c.got;
        if c.sizes.Some? {
          cached, filled := Some((c.sizes.value, c.got)), Some(c);
        }
      }
    }
  }
}
