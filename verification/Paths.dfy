/** Names of archive members: cleaning them, and following links between them. */
module Paths {
  type Path = seq<string>

  datatype Result = Unsafe | Ok(path: Path)

  // ---- text to components ----

  function Slashes(s: string): (r: string)
    ensures |r| == |s| && forall i | 0 <= i < |s| :: r[i] == if s[i] == '\\' then '/' else s[i]
  {
    seq(|s|, (i: nat) requires i < |s| => if s[i] == '\\' then '/' else s[i])
  }

  function DropDots(s: string): string
  {
    if |s| >= 2 && s[0] == '.' && s[1] == '/' then DropDots(s[2..]) else s
  }

  function DropSlashes(s: string): string
  {
    if s != "" && s[|s| - 1] == '/' then DropSlashes(s[..|s| - 1]) else s
  }

  function Split(s: string): (r: seq<string>)
    ensures r != []
  {
    if s == "" then [""]
    else
      var r := Split(s[1..]);
      if s[0] == '/' then [""] + r else [[s[0]] + r[0]] + r[1..]
  }

  predicate Kept(c: string)
  {
    c != "" && c != "."
  }

  function Keep(cs: seq<string>): seq<string>
  {
    if cs == [] then [] else (if Kept(cs[0]) then [cs[0]] else []) + Keep(cs[1..])
  }

  /** The parts of a POSIX path. */
  function Components(s: string): seq<string>
  {
    Keep(Split(s))
  }

  /** _safe_tar_path; the path "." has no components. */
  function SafeTarPath(raw: string): Result
  {
    var name := DropSlashes(DropDots(Slashes(raw)));
    if name == "" || name == "." then Ok([])
    else if name[0] == '/' || ".." in Components(name) || '\0' in name then Unsafe
    else Ok(Components(name))
  }

  /** The loop that drops leading "./", and the rest of the cleaning. */
  method CleanName(raw: string) returns (r: Result)
    ensures r == SafeTarPath(raw)
    ensures r == Unsafe <==> Rooted(raw) || (exists i: nat :: UpAt(raw, i)) || '\0' in raw
  {
    SafeExact(raw);
    var name := Slashes(raw);
    while |name| >= 2 && name[0] == '.' && name[1] == '/'
      invariant DropDots(name) == DropDots(Slashes(raw))
      decreases |name|
    {
      name := name[2..];
    }
    name := DropSlashes(name);
    if name == "" || name == "." {
      return Ok([]);
    }
    var parts := Components(name);
    if name[0] == '/' || ".." in parts || '\0' in name {
      return Unsafe;
    }
    return Ok(parts);
  }

  /** as_posix. */
  function Join(cs: Path): string
    requires cs != []
  {
    if |cs| == 1 then cs[0] else cs[0] + "/" + Join(cs[1..])
  }

  function Text(cs: Path): string
  {
    if cs == [] then "." else Join(cs)
  }

  // ---- cleaning is idempotent ----

  predicate Plain(c: string)
  {
    Kept(c) && c != ".." && '/' !in c && '\\' !in c && '\0' !in c
  }

  predicate Proper(cs: Path)
  {
    forall i | 0 <= i < |cs| :: Plain(cs[i])
  }

  lemma {:induction false} SplitChars(s: string, c: string, x: char)
    requires c in Split(s) && x in c
    ensures x in s && x != '/'
  {
    if s != "" {
      var r := Split(s[1..]);
      if c in r {
        SplitChars(s[1..], c, x);
      } else if s[0] != '/' && c == [s[0]] + r[0] {
        if x != s[0] {
          assert x in r[0];
          SplitChars(s[1..], r[0], x);
        }
      }
    }
  }

  lemma {:induction false} KeepMembers(cs: seq<string>, c: string)
    ensures c in Keep(cs) <==> c in cs && Kept(c)
  {
    if cs != [] {
      KeepMembers(cs[1..], c);
      assert c in cs <==> c == cs[0] || c in cs[1..];
    }
  }

  lemma DropChars(s: string, x: char)
    requires x in DropSlashes(DropDots(s))
    ensures x in s
  {
    DropDotsChars(s, x);
    DropSlashesChars(DropDots(s), x);
  }

  lemma {:induction false} DropDotsChars(s: string, x: char)
    ensures x in DropDots(s) ==> x in s
  {
    if |s| >= 2 && s[0] == '.' && s[1] == '/' {
      DropDotsChars(s[2..], x);
    }
  }

  lemma {:induction false} DropSlashesChars(s: string, x: char)
    ensures x in DropSlashes(s) ==> x in s
  {
    if s != "" && s[|s| - 1] == '/' {
      DropSlashesChars(s[..|s| - 1], x);
    }
  }

  /** Every accepted name has clean components only. */
  lemma SafeIsProper(raw: string)
    requires SafeTarPath(raw).Ok?
    ensures Proper(SafeTarPath(raw).path)
  {
    var name := DropSlashes(DropDots(Slashes(raw)));
    if name != "" && name != "." {
      var cs := Components(name);
      forall i | 0 <= i < |cs| ensures Plain(cs[i]) {
        var c := cs[i];
        KeepMembers(Split(name), c);
        assert c != ".." by {
          assert c in Components(name);
        }
        forall x | x in c ensures x in name && x != '/' && x != '\\' {
          SplitChars(name, c, x);
          DropChars(Slashes(raw), x);
        }
      }
    }
  }

  lemma {:induction false} SplitPlain(c: string)
    requires '/' !in c
    ensures Split(c) == [c]
  {
    if c != "" {
      SplitPlain(c[1..]);
      assert c == [c[0]] + c[1..];
    }
  }

  lemma {:induction false} SplitSlash(c: string, rest: string)
    requires '/' !in c
    ensures Split(c + "/" + rest) == [c] + Split(rest)
  {
    var s := c + "/" + rest;
    if c == "" {
      assert s == "/" + rest;
      assert s[1..] == rest;
    } else {
      var t := c[1..];
      assert s[1..] == t + "/" + rest;
      SplitSlash(t, rest);
      assert c == [c[0]] + t;
    }
  }

  lemma {:induction false} SplitJoin(cs: Path)
    requires cs != [] && Proper(cs)
    ensures Split(Join(cs)) == cs
  {
    if |cs| == 1 {
      SplitPlain(cs[0]);
    } else {
      SplitJoin(cs[1..]);
      SplitSlash(cs[0], Join(cs[1..]));
    }
  }

  lemma {:induction false} KeepAll(cs: Path)
    requires Proper(cs)
    ensures Keep(cs) == cs
  {
    if cs != [] {
      KeepAll(cs[1..]);
    }
  }

  lemma {:induction false} JoinChars(cs: Path, x: char)
    requires cs != [] && Proper(cs) && x in Join(cs)
    ensures x != '\\' && x != '\0'
  {
    if |cs| > 1 && x !in cs[0] && x != '/' {
      assert x in Join(cs[1..]);
      JoinChars(cs[1..], x);
    }
  }

  lemma {:induction false} JoinEnds(cs: Path)
    requires cs != [] && Proper(cs)
    ensures Join(cs) != "" && Join(cs) != "." && Join(cs)[0] != '/' && Join(cs)[|Join(cs)| - 1] != '/'
    ensures !(|Join(cs)| >= 2 && Join(cs)[0] == '.' && Join(cs)[1] == '/')
  {
    var c := cs[0];
    assert c[0] in c;
    if |cs| == 1 {
      assert c[|c| - 1] in c;
      assert |c| >= 2 ==> c[1] in c;
    } else {
      JoinEnds(cs[1..]);
      assert |c| >= 2 ==> c[1] in c;
      assert |c| == 1 ==> c == [c[0]];
    }
  }

  /** Cleaning a cleaned name returns it: the text of a path is its name and no other's. */
  lemma SafeTwice(cs: Path)
    requires Proper(cs)
    ensures SafeTarPath(Text(cs)) == Ok(cs)
  {
    if cs != [] {
      var s := Join(cs);
      forall i | 0 <= i < |s| ensures s[i] != '\\' {
        JoinChars(cs, s[i]);
      }
      assert Slashes(s) == s;
      JoinEnds(cs);
      SplitJoin(cs);
      KeepAll(cs);
      assert '\0' !in s by {
        if '\0' in s {
          JoinChars(cs, '\0');
        }
      }
      assert ".." !in cs;
    }
  }

  lemma {:induction false} KeepConcat(a: seq<string>, b: seq<string>)
    ensures Keep(a + b) == Keep(a) + Keep(b)
  {
    if a == [] {
      assert a + b == b;
    } else {
      assert (a + b)[1..] == a[1..] + b;
      KeepConcat(a[1..], b);
    }
  }

  lemma {:induction false} SplitEnd(s: string)
    ensures Split(s + "/") == Split(s) + [""]
  {
    if s == "" {
      assert s + "/" == "/" && "/"[1..] == "";
    } else {
      assert (s + "/")[1..] == s[1..] + "/";
      SplitEnd(s[1..]);
    }
  }

  lemma {:induction false} DropDotsParts(s: string)
    ensures Components(DropDots(s)) == Components(s)
  {
    if |s| >= 2 && s[0] == '.' && s[1] == '/' {
      DropDotsParts(s[2..]);
      assert s == "." + "/" + s[2..];
      SplitSlash(".", s[2..]);
      assert Split(s)[0] == "." && Split(s)[1..] == Split(s[2..]);
    }
  }

  lemma {:induction false} DropSlashesParts(s: string)
    ensures Components(DropSlashes(s)) == Components(s)
  {
    if s != "" && s[|s| - 1] == '/' {
      var t := s[..|s| - 1];
      DropSlashesParts(t);
      assert s == t + "/";
      SplitEnd(t);
      KeepConcat(Split(t), [""]);
      assert Keep([""]) == [];
    }
  }

  /** An accepted name stands for the parts of the name as it was written. */
  lemma SafeIsParts(raw: string)
    requires SafeTarPath(raw).Ok?
    ensures SafeTarPath(raw).path == Components(Slashes(raw)) && ".." !in Components(Slashes(raw))
  {
    var s := Slashes(raw);
    DropDotsParts(s);
    DropSlashesParts(DropDots(s));
    assert Components("") == [] by {
      assert Split("") == [""];
    }
    assert Components(".") == [] by {
      SplitPlain(".");
    }
  }

  // ---- which names are refused ----

  /** Splitting loses nothing and leaves no slash in a part. */
  lemma {:induction false} SplitExact(s: string)
    ensures Join(Split(s)) == s && forall c | c in Split(s) :: '/' !in c
  {
    if s != "" {
      var r := Split(s[1..]);
      SplitExact(s[1..]);
      if s[0] == '/' {
        assert Split(s) == [""] + r && ([""] + r)[1..] == r;
        assert s == "" + "/" + s[1..];
      } else {
        GrowFirst(s[0], r);
        assert s == [s[0]] + s[1..];
        forall c | c in Split(s) ensures '/' !in c {
          assert c in r || c == [s[0]] + r[0];
        }
      }
    }
  }

  lemma GrowFirst(x: char, r: seq<string>)
    requires r != []
    ensures Join([[x] + r[0]] + r[1..]) == [x] + Join(r)
  {
    var t := [[x] + r[0]] + r[1..];
    assert t[1..] == r[1..];
    if |r| > 1 {
      Prepend(x, r[0], Join(r[1..]));
    }
  }

  lemma Prepend(x: char, a: string, b: string)
    ensures [x] + a + "/" + b == [x] + (a + "/" + b)
  {
  }

  /** c is a part of s: it stands between slashes or the ends of s. */
  ghost predicate PartAt(s: string, c: string, i: nat)
  {
    && i + |c| <= |s| && s[i..i + |c|] == c && '/' !in c
    && (i == 0 || s[i - 1] == '/') && (i + |c| == |s| || s[i + |c|] == '/')
  }

  lemma {:induction false} FirstPart(s: string, c: string)
    ensures PartAt(s, c, 0) <==> c == Split(s)[0]
  {
    if s != "" {
      var t := s[1..];
      if s[0] == '/' {
        assert 0 < |c| <= |s| ==> s[0..|c|][0] == s[0];
      } else {
        if c != "" {
          FirstPart(t, c[1..]);
          FirstPartStep(s, c);
        }
      }
    }
  }

  lemma FirstPartStep(s: string, c: string)
    requires s != "" && s[0] != '/' && c != ""
    ensures PartAt(s, c, 0) <==> c[0] == s[0] && PartAt(s[1..], c[1..], 0)
  {
    assert c == [c[0]] + c[1..];
    if |c| <= |s| {
      assert s[0..|c|] == [s[0]] + s[1..][0..|c| - 1];
    }
  }

  lemma PartShift(s: string, c: string, i: nat)
    requires s != "" && i >= 1
    ensures PartAt(s, c, i) <==> PartAt(s[1..], c, i - 1) && (i == 1 ==> s[0] == '/')
  {
    if i + |c| <= |s| {
      var u, v := s[1..][i - 1..i - 1 + |c|], s[i..i + |c|];
      assert |u| == |v| && forall k | 0 <= k < |u| :: u[k] == v[k];
      assert u == v;
    }
  }

  ghost predicate LaterPart(s: string, c: string)
  {
    exists i: nat :: i >= 1 && PartAt(s, c, i)
  }

  lemma LaterStep(s: string, c: string)
    requires s != ""
    ensures LaterPart(s, c) <==> LaterPart(s[1..], c) || (s[0] == '/' && PartAt(s[1..], c, 0))
  {
    if i: nat :| i >= 1 && PartAt(s, c, i) {
      PartShift(s, c, i);
    }
    if i: nat :| i >= 1 && PartAt(s[1..], c, i) {
      PartShift(s, c, i + 1);
    }
    PartShift(s, c, 1);
  }

  lemma {:induction false} LaterParts(s: string, c: string)
    ensures c in Split(s)[1..] <==> LaterPart(s, c)
  {
    if s != "" {
      var t := s[1..];
      LaterParts(t, c);
      LaterStep(s, c);
      FirstPart(t, c);
      assert Split(t) == [Split(t)[0]] + Split(t)[1..];
    }
  }

  /** The parts that splitting finds are those that stand in the text. */
  lemma SplitMembers(s: string, c: string)
    ensures c in Split(s) <==> exists i: nat :: PartAt(s, c, i)
  {
    FirstPart(s, c);
    LaterParts(s, c);
    assert Split(s) == [Split(s)[0]] + Split(s)[1..];
  }

  predicate Slash(x: char)
  {
    x == '/' || x == '\\'
  }

  /** After k times "./" comes a slash, and not only slashes. */
  ghost predicate RootedAt(s: string, k: nat)
  {
    && 2 * k < |s| && (forall j: nat | j < k :: s[2 * j] == '.' && Slash(s[2 * j + 1]))
    && Slash(s[2 * k]) && exists m: nat :: 2 * k < m < |s| && !Slash(s[m])
  }

  /** The name is an absolute one. */
  ghost predicate Rooted(s: string)
  {
    exists k: nat :: RootedAt(s, k)
  }

  /** The name goes up at position i: a part ".." stands there. */
  ghost predicate UpAt(s: string, i: nat)
  {
    && i + 2 <= |s| && s[i] == '.' && s[i + 1] == '.'
    && (i == 0 || Slash(s[i - 1])) && (i + 2 == |s| || Slash(s[i + 2]))
  }

  lemma UpIsPart(raw: string, i: nat)
    ensures UpAt(raw, i) <==> PartAt(Slashes(raw), "..", i)
  {
    var s := Slashes(raw);
    if i + 2 <= |raw| {
      assert s[i..i + 2] == [s[i], s[i + 1]];
    }
  }

  ghost predicate HasOther(s: string)
  {
    exists m: nat :: m < |s| && s[m] != '/'
  }

  lemma {:induction false} DropSlashesHead(s: string)
    ensures HasOther(s) ==> DropSlashes(s) != "" && DropSlashes(s)[0] == s[0]
    ensures !HasOther(s) ==> DropSlashes(s) == ""
  {
    if s != "" && s[|s| - 1] == '/' {
      var t := s[..|s| - 1];
      DropSlashesHead(t);
      if m: nat :| m < |s| && s[m] != '/' {
        assert t[m] != '/';
      }
      if m: nat :| m < |t| && t[m] != '/' {
        assert s[m] != '/';
      }
    } else if s != "" {
      assert s[|s| - 1] != '/';
    }
  }

  /** s is what Slashes returns: backslashes are gone. */
  predicate Forward(s: string)
  {
    forall i | 0 <= i < |s| :: s[i] != '\\'
  }

  lemma RootedShift(s: string, k: nat)
    requires |s| >= 2 && s[0] == '.' && s[1] == '/'
    ensures RootedAt(s, k + 1) <==> RootedAt(s[2..], k)
    ensures !RootedAt(s, 0)
  {
    var t := s[2..];
    if RootedAt(s, k + 1) {
      forall j: nat | j < k ensures t[2 * j] == '.' && Slash(t[2 * j + 1]) {
        assert s[2 * (j + 1)] == '.' && Slash(s[2 * (j + 1) + 1]);
      }
      var m: nat :| 2 * (k + 1) < m < |s| && !Slash(s[m]);
      assert !Slash(t[m - 2]);
    }
    if RootedAt(t, k) {
      forall j: nat | j < k + 1 ensures s[2 * j] == '.' && Slash(s[2 * j + 1]) {
        if j > 0 {
          assert t[2 * (j - 1)] == '.' && Slash(t[2 * (j - 1) + 1]);
        }
      }
      var m: nat :| 2 * k < m < |t| && !Slash(t[m]);
      assert !Slash(s[m + 2]);
    }
  }

  lemma {:induction false} RootedDots(s: string)
    requires Forward(s)
    ensures Rooted(s) <==> DropDots(s) != "" && DropDots(s)[0] == '/' && HasOther(DropDots(s))
    decreases |s|
  {
    if |s| >= 2 && s[0] == '.' && s[1] == '/' {
      RootedDots(s[2..]);
      if k: nat :| RootedAt(s, k) {
        RootedShift(s, 0);
        RootedShift(s, k - 1);
      }
      if k: nat :| RootedAt(s[2..], k) {
        RootedShift(s, k);
      }
    } else {
      if k: nat :| RootedAt(s, k) {
        assert k == 0 || (s[2 * 0] == '.' && Slash(s[2 * 0 + 1]));
      }
      if s != "" && s[0] == '/' && HasOther(s) {
        var m: nat :| m < |s| && s[m] != '/';
        assert RootedAt(s, 0);
      }
    }
  }

  lemma RootedSlashes(raw: string)
    ensures Rooted(Slashes(raw)) <==> Rooted(raw)
  {
    var s := Slashes(raw);
    forall k: nat ensures RootedAt(s, k) <==> RootedAt(raw, k) {
      assert forall j: nat | j < |raw| :: (Slash(s[j]) <==> Slash(raw[j])) && (s[j] == '.' <==> raw[j] == '.');
    }
  }

  lemma {:induction false} DropDotsKeeps(s: string, x: char)
    requires x != '.' && x != '/' && x in s
    ensures x in DropDots(s)
  {
    if |s| >= 2 && s[0] == '.' && s[1] == '/' {
      assert s == [s[0], s[1]] + s[2..];
      DropDotsKeeps(s[2..], x);
    }
  }

  lemma {:induction false} DropSlashesKeeps(s: string, x: char)
    requires x != '/' && x in s
    ensures x in DropSlashes(s)
  {
    if s[|s| - 1] == '/' {
      assert s == s[..|s| - 1] + [s[|s| - 1]];
      DropSlashesKeeps(s[..|s| - 1], x);
    }
  }

  lemma NulStays(raw: string)
    ensures '\0' in DropSlashes(DropDots(Slashes(raw))) <==> '\0' in raw
  {
    var s := Slashes(raw);
    if '\0' in raw {
      var i :| 0 <= i < |raw| && raw[i] == '\0';
      assert s[i] == '\0';
      DropDotsKeeps(s, '\0');
      DropSlashesKeeps(DropDots(s), '\0');
    }
    if '\0' in DropSlashes(DropDots(s)) {
      DropChars(s, '\0');
      var i :| 0 <= i < |s| && s[i] == '\0';
      assert raw[i] == '\0';
    }
  }

  lemma UpParts(raw: string)
    ensures ".." in Components(DropSlashes(DropDots(Slashes(raw)))) <==> exists i: nat :: UpAt(raw, i)
  {
    var s := Slashes(raw);
    DropDotsParts(s);
    DropSlashesParts(DropDots(s));
    KeepMembers(Split(s), "..");
    SplitMembers(s, "..");
    forall i: nat ensures UpAt(raw, i) <==> PartAt(s, "..", i) {
      UpIsPart(raw, i);
    }
  }

  /** A name is refused exactly when it is absolute, has a part "..", or holds a NUL. */
  lemma SafeExact(raw: string)
    ensures SafeTarPath(raw) == Unsafe <==> Rooted(raw) || (exists i: nat :: UpAt(raw, i)) || '\0' in raw
  {
    var s := Slashes(raw);
    RootedSlashes(raw);
    RootedDots(s);
    DropSlashesHead(DropDots(s));
    NulStays(raw);
    UpParts(raw);
    var name := DropSlashes(DropDots(s));
    if name == "." {
      SplitPlain(".");
      assert Components(name) == [];
    }
  }

  // ---- links ----

  /** One more component after those that are left so far. */
  function Onward(done: seq<string>, c: string): seq<string>
  {
    if c != ".." || done == [] || done[|done| - 1] == ".." then done + [c] else done[..|done| - 1]
  }

  /** posixpath.normpath on the components of a relative path. */
  function Collapse(cs: seq<string>): seq<string>
  {
    if cs == [] then [] else Onward(Collapse(cs[..|cs| - 1]), cs[|cs| - 1])
  }

  lemma CollapseAppend(cs: seq<string>, c: string)
    ensures Collapse(cs + [c]) == Onward(Collapse(cs), c)
  {
    assert (cs + [c])[..|cs|] == cs;
  }

  /** How far below its start a walk along the components ends. */
  function Depth(cs: seq<string>): int
  {
    if cs == [] then 0 else Depth(cs[..|cs| - 1]) + if cs[|cs| - 1] == ".." then -1 else 1
  }

  ghost predicate Below(cs: seq<string>, k: nat)
  {
    k <= |cs| && Depth(cs[..k]) < 0
  }

  /** The walk leaves its starting directory at some point. */
  ghost predicate Leaves(cs: seq<string>)
  {
    exists k: nat :: Below(cs, k)
  }

  lemma BelowPrefix(cs: seq<string>, n: nat, k: nat)
    requires k <= n <= |cs|
    ensures Below(cs[..n], k) <==> Below(cs, k)
  {
    assert cs[..n][..k] == cs[..k];
  }

  lemma BelowWhole(cs: seq<string>)
    ensures Below(cs, |cs|) <==> Depth(cs) < 0
  {
    assert cs[..|cs|] == cs;
  }

  lemma LeavesStep(cs: seq<string>)
    requires cs != []
    ensures Leaves(cs) <==> Leaves(cs[..|cs| - 1]) || Depth(cs) < 0
  {
    var n := |cs| - 1;
    BelowWhole(cs);
    if k: nat :| Below(cs[..n], k) {
      BelowPrefix(cs, n, k);
    }
    if k: nat :| Below(cs, k) {
      if k <= n {
        BelowPrefix(cs, n, k);
      }
    }
  }

  /** A collapsed path starts with ".." exactly when the walk leaves its start at some
      point, however deep it comes back; otherwise it goes only down. */
  lemma {:induction false} CollapseExact(cs: seq<string>)
    ensures Collapse(cs) != [] && Collapse(cs)[0] == ".." <==> Leaves(cs)
    ensures !Leaves(cs) ==> ".." !in Collapse(cs) && |Collapse(cs)| == Depth(cs)
  {
    if cs == [] {
      assert forall k: nat | k <= 0 :: cs[..k] == [];
    } else {
      var n := |cs| - 1;
      CollapseExact(cs[..n]);
      LeavesStep(cs);
    }
  }

  lemma {:induction false} CollapseMembers(cs: seq<string>, c: string)
    requires c in Collapse(cs)
    ensures c in cs
  {
    if cs != [] {
      var init := cs[..|cs| - 1];
      if c in Collapse(init) {
        CollapseMembers(init, c);
      }
    }
  }

  lemma {:induction false} CollapseDown(cs: seq<string>)
    requires ".." !in cs
    ensures Collapse(cs) == cs
  {
    if cs != [] {
      CollapseDown(cs[..|cs| - 1]);
    }
  }

  /** Going down and up again is going nowhere. */
  lemma {:induction false} CollapseCancels(a: seq<string>, c: string, b: seq<string>)
    requires c != ".."
    ensures Collapse(a + [c, ".."] + b) == Collapse(a + b)
  {
    if b == [] {
      assert a + [c, ".."] + b == a + [c] + [".."] && a + b == a;
      CollapseAppend(a, c);
      CollapseAppend(a + [c], "..");
    } else {
      var init, last := b[..|b| - 1], b[|b| - 1];
      var x, y := a + [c, ".."] + init, a + init;
      assert a + [c, ".."] + b == x + [last] && a + b == y + [last];
      CollapseCancels(a, c, init);
      CollapseAppend(x, last);
      CollapseAppend(y, last);
    }
  }

  function Parent(p: Path): Path
  {
    if p == [] then [] else p[..|p| - 1]
  }

  lemma ParentExact(p: Path, c: string)
    ensures Parent(p + [c]) == p && Parent([]) == []
  {
    assert (p + [c])[..|p|] == p;
  }

  /** _resolved_workspace_link. */
  function ResolveLink(p: Path, link: string): Result
  {
    var raw := Slashes(link);
    if raw == "" || '\0' in raw || raw[0] == '/' then Unsafe
    else
      var norm := Collapse(Parent(p) + Components(raw));
      if norm != [] && norm[0] == ".." then Unsafe else SafeTarPath(Text(norm))
  }

  lemma LinkComponents(p: Path, link: string, c: string)
    requires Proper(p) && '\0' !in Slashes(link) && c in Parent(p) + Components(Slashes(link)) && c != ".."
    ensures Plain(c)
  {
    if c in Parent(p) {
      var i :| 0 <= i < |p| && p[i] == c;
    } else {
      KeepMembers(Split(Slashes(link)), c);
      forall x | x in c ensures x in Slashes(link) && x != '/' && x != '\\' {
        SplitChars(Slashes(link), c, x);
      }
    }
  }

  /** A symlink is accepted exactly when its target is a non-empty relative name without
      NUL and the walk from the link's directory never leaves the workspace; it then
      resolves to a clean path inside. */
  lemma ResolveExact(p: Path, link: string)
    requires Proper(p)
    ensures ResolveLink(p, link).Ok? <==>
      && link != "" && '\0' !in link && link[0] != '/' && link[0] != '\\'
      && !Leaves(Parent(p) + Components(Slashes(link)))
    ensures ResolveLink(p, link).Ok? ==>
      && ResolveLink(p, link).path == Collapse(Parent(p) + Components(Slashes(link)))
      && Proper(ResolveLink(p, link).path)
  {
    var raw := Slashes(link);
    assert '\0' in raw <==> '\0' in link by {
      if '\0' in link {
        var i :| 0 <= i < |link| && link[i] == '\0';
        assert raw[i] == '\0';
      }
    }
    var cs := Parent(p) + Components(raw);
    CollapseExact(cs);
    if '\0' !in raw && !Leaves(cs) {
      var norm := Collapse(cs);
      forall i | 0 <= i < |norm| ensures Plain(norm[i]) {
        CollapseMembers(cs, norm[i]);
        LinkComponents(p, link, norm[i]);
      }
      SafeTwice(norm);
    }
  }
}
