/**
 * The path canonicalizer `vde_realpath` (vde-2/src/common/canonicalize.c).  The code edits one
 * character buffer: it appends components, backs up over them, and on a symbolic link puts the
 * link's target in front of what is left of the name.  `Walk` says the same on a stack of
 * components; `Follow` is pathname resolution on component lists, without buffers or length limits.
 */
module Realpath {
  import opened Common

  const PATH_MAX := 4096
  const MAXSYMLINKS := 20

  const ENOENT := 2
  const ENOMEM := 12
  const EACCES := 13
  const ENOTDIR := 20
  const ENAMETOOLONG := 36
  const ELOOP := 40

  type Name = string

  /** What lstat, readlink and access say about an absolute path. */
  datatype Kind =
    | Fails(err: int)
    | LinkTo(target: string)
    | Unreadable(err: int)
    | Dir(searchable: bool)
    | Other

  type Fs = string -> Kind

  /** `at` is what the buffer holds when the call fails. */
  datatype Outcome = Done(path: seq<Name>) | Failed(err: int, at: string)
  // Paths as component lists.

  predicate Good(c: Name) { c != "" && '/' !in c && c != "." && c != ".." }
  predicate AllGood(p: seq<Name>) { forall i :: 0 <= i < |p| ==> Good(p[i]) }

  function Join(p: seq<Name>): string { if p == [] then "" else "/" + p[0] + Join(p[1..]) }

  function Render(p: seq<Name>): string { if p == [] then "/" else Join(p) }

  function Pop(p: seq<Name>): seq<Name> { if p == [] then [] else p[..|p| - 1] }

  // Scanning the name.

  function Skip(s: string): string { if s != "" && s[0] == '/' then Skip(s[1..]) else s }

  function Until(s: string): nat { if s == "" || s[0] == '/' then 0 else 1 + Until(s[1..]) }

  lemma {:induction false} SkipShorter(s: string)
    ensures |Skip(s)| <= |s| && (Skip(s) != "" ==> Skip(s)[0] != '/')
    ensures s != "" && s[0] == '/' ==> |Skip(s)| < |s|
  {
    if s != "" && s[0] == '/' { SkipShorter(s[1..]); }
  }

  lemma {:induction false} UntilStops(s: string)
    ensures Until(s) <= |s| && '/' !in s[..Until(s)]
    ensures Until(s) < |s| ==> s[Until(s)] == '/'
  {
    if s != "" && s[0] != '/' {
      UntilStops(s[1..]);
      assert s[..Until(s)] == [s[0]] + s[1..][..Until(s[1..])];
    }
  }

  /** The first component of s and what follows it. */
  function First(s: string): (r: (Name, string))
    ensures |r.1| <= |s| && (r.0 != "" ==> |r.1| < |s|) && '/' !in r.0
    ensures r.1 != "" ==> r.1[0] == '/'
  {
    SkipShorter(s);
    UntilStops(Skip(s));
    (Skip(s)[..Until(Skip(s))], Skip(s)[Until(Skip(s))..])
  }

  function Base(p: seq<Name>, target: string): seq<Name> {
    if target != "" && target[0] == '/' then [] else p
  }

  /** The loop, on a stack of components. */
  function Walk(fs: Fs, p: seq<Name>, rest: string, links: nat): Outcome
    requires links <= MAXSYMLINKS
    decreases MAXSYMLINKS - links, |rest|
  {
    var (c, more) := First(rest);
    if c == "" then Done(p)
    else if c == "." then Walk(fs, p, more, links)
    else if c == ".." then Walk(fs, Pop(p), more, links)
    else if |Render(p + [c])| >= PATH_MAX then Failed(ENAMETOOLONG, Render(p))
    else
      var here := Render(p + [c]);
      match fs(here)
      case Fails(e) => Failed(e, here)
      case LinkTo(t) =>
        if links == MAXSYMLINKS then Failed(ELOOP, here)
        else if |t| + |more| >= PATH_MAX then Failed(ENAMETOOLONG, here)
        else Walk(fs, Base(p, t), t + more, links + 1)
      case Unreadable(e) => Failed(if links == MAXSYMLINKS then ELOOP else e, here)
      case Dir(x) => if more != "" && !x then Failed(EACCES, here) else Walk(fs, p + [c], more, links)
      case Other => if more != "" then Failed(ENOTDIR, here) else Walk(fs, p + [c], more, links)
  }

  // What a successful walk returns.

  predicate Searchable(k: Kind) { k == Dir(true) }
  predicate Present(k: Kind) { k.Dir? || k.Other? }

  /** Every prefix is a directory that can be searched. */
  predicate Open(fs: Fs, p: seq<Name>) {
    forall k :: 1 <= k <= |p| ==> Searchable(fs(Render(p[..k])))
  }

  /** No empty, `.` or `..` component, no prefix that is a symbolic link, every prefix but the whole a
      searchable directory, and the whole present and short enough. */
  predicate Canonical(fs: Fs, p: seq<Name>) {
    && AllGood(p) && |Render(p)| < PATH_MAX
    && (forall k :: 1 <= k <= |p| ==> Present(fs(Render(p[..k]))))
    && Open(fs, Pop(p))
  }

  /** A place to walk from: canonical, and a searchable directory itself. */
  predicate Home(fs: Fs, p: seq<Name>) { AllGood(p) && |Render(p)| < PATH_MAX && Open(fs, p) }

  lemma {:induction false} JoinAppend(p: seq<Name>, c: Name)
    ensures Join(p + [c]) == Join(p) + "/" + c
  {
    if p == [] {
      assert p + [c] == [c];
    } else {
      assert (p + [c])[1..] == p[1..] + [c];
      JoinAppend(p[1..], c);
    }
  }

  lemma PopHome(fs: Fs, p: seq<Name>)
    requires Home(fs, p)
    ensures Home(fs, Pop(p))
  {
    if p != [] {
      var q := Pop(p);
      assert p == q + [p[|p| - 1]];
      JoinAppend(q, p[|p| - 1]);
      assert forall k :: 1 <= k <= |q| ==> q[..k] == p[..k];
    }
  }

  lemma PushHome(fs: Fs, p: seq<Name>, c: Name)
    requires Home(fs, p) && Good(c) && |Render(p + [c])| < PATH_MAX && Present(fs(Render(p + [c])))
    ensures Canonical(fs, p + [c])
    ensures Searchable(fs(Render(p + [c]))) ==> Home(fs, p + [c])
  {
    var q := p + [c];
    assert Pop(q) == p;
    assert forall k :: 1 <= k <= |p| ==> q[..k] == p[..k];
    assert q[..|q|] == q;
  }

  lemma HomeCanonical(fs: Fs, p: seq<Name>)
    requires Home(fs, p)
    ensures Canonical(fs, p)
  {
    PopHome(fs, p);
  }

  /** Started in a canonical directory, a walk that succeeds ends in a canonical path. */
  lemma {:induction false} WalkCanonical(fs: Fs, p: seq<Name>, rest: string, links: nat)
    requires links <= MAXSYMLINKS && (if rest == "" then Canonical(fs, p) else Home(fs, p))
    ensures Walk(fs, p, rest, links).Done? ==> Canonical(fs, Walk(fs, p, rest, links).path)
    decreases MAXSYMLINKS - links, |rest|
  {
    hide Canonical, Home, Render;
    if rest != "" { HomeCanonical(fs, p); PopHome(fs, p); }
    var (c, more) := First(rest);
    if c == "." {
      WalkCanonical(fs, p, more, links);
    } else if c == ".." {
      HomeCanonical(fs, Pop(p));
      WalkCanonical(fs, Pop(p), more, links);
    } else if c != "" && |Render(p + [c])| < PATH_MAX {
      match fs(Render(p + [c]))
      case LinkTo(t) =>
        if links < MAXSYMLINKS && |t| + |more| < PATH_MAX {
          RootHome(fs);
          HomeCanonical(fs, Base(p, t));
          WalkCanonical(fs, Base(p, t), t + more, links + 1);
        }
      case Dir(x) => if more == "" || x { PushHome(fs, p, c); WalkCanonical(fs, p + [c], more, links); }
      case Other => if more == "" { PushHome(fs, p, c); WalkCanonical(fs, p + [c], more, links); }
      case _ =>
    }
  }

  lemma RootHome(fs: Fs)
    ensures Home(fs, [])
  {}

  /** Why a walk fails, from what is at the path it leaves in the buffer: the error of lstat, readlink or
      access there, a component that is not a directory, too many links, or a name that has grown too
      long. */
  predicate Reason(k: Kind, err: int) {
    match k
    case Fails(e) => err == e
    case Unreadable(e) => err == e || err == ELOOP
    case LinkTo(_) => err == ELOOP || err == ENAMETOOLONG
    case Dir(searchable) => !searchable && err == EACCES
    case Other => err == ENOTDIR
  }

  /** The name that would be too long: the buffer holds its parent. */
  predicate TooLong(p: seq<Name>, c: Name) { Good(c) && |Render(p + [c])| >= PATH_MAX }

  lemma {:induction false} WalkFails(fs: Fs, p: seq<Name>, rest: string, links: nat)
    requires links <= MAXSYMLINKS
    ensures var w := Walk(fs, p, rest, links);
      w.Failed? ==>
        || Reason(fs(w.at), w.err)
        || (w.err == ENAMETOOLONG && exists q, c :: w.at == Render(q) && TooLong(q, c))
    ensures Walk(fs, p, rest, links).Failed? && Walk(fs, p, rest, links).err == ELOOP ==>
      var k := fs(Walk(fs, p, rest, links).at);
      k.LinkTo? || k == Fails(ELOOP) || k.Unreadable?
    decreases MAXSYMLINKS - links, |rest|
  {
    hide Render, First;
    var (c, more) := First(rest);
    if c == "." {
      WalkFails(fs, p, more, links);
    } else if c == ".." {
      WalkFails(fs, Pop(p), more, links);
    } else if c != "" && |Render(p + [c])| >= PATH_MAX {
      assert TooLong(p, c);
    } else if c != "" {
      match fs(Render(p + [c]))
      case LinkTo(t) =>
        if links < MAXSYMLINKS && |t| + |more| < PATH_MAX { WalkFails(fs, Base(p, t), t + more, links + 1); }
      case Dir(x) => if more == "" || x { WalkFails(fs, p + [c], more, links); }
      case Other => if more == "" { WalkFails(fs, p + [c], more, links); }
      case Fails(_) =>
      case Unreadable(_) =>
    }
  }

  // Resolution without buffers: a list of components, and whether the last must be a directory.

  function Split(s: string): seq<Name>
    decreases |s|
  {
    var (c, more) := First(s);
    if c == "" then [] else [c] + Split(more)
  }

  predicate Slashed(s: string) { s != "" && s[|s| - 1] == '/' }

  function Follow(fs: Fs, p: seq<Name>, comps: seq<Name>, dir: bool, fuel: nat): Option<seq<Name>>
    decreases fuel, |comps|
  {
    if comps == [] then Some(p)
    else
      var c, more := comps[0], comps[1..];
      if c == "." then Follow(fs, p, more, dir, fuel)
      else if c == ".." then Follow(fs, Pop(p), more, dir, fuel)
      else
        var needed := more != [] || dir;
        match fs(Render(p + [c]))
        case Fails(_) => None
        case Unreadable(_) => None
        case LinkTo(t) =>
          if fuel == 0 then None
          else Follow(fs, Base(p, t), Split(t) + more, if needed then dir else Slashed(t), fuel - 1)
        case Dir(x) => if needed && !x then None else Follow(fs, p + [c], more, dir, fuel)
        case Other => if needed then None else Follow(fs, p + [c], more, dir, fuel)
  }

  lemma {:induction false} SkipKeepsEnd(s: string)
    ensures Skip(s) != "" ==> s != "" && s[|s| - 1] == Skip(s)[|Skip(s)| - 1]
    ensures Skip(s) == "" && s != "" ==> s[|s| - 1] == '/'
  {
    if s != "" && s[0] == '/' { SkipKeepsEnd(s[1..]); }
  }

  /** A trailing slash is still there after the first component. */
  lemma FirstSlashed(s: string)
    requires First(s).0 != ""
    ensures Slashed(First(s).1) == Slashed(s)
  {
    SkipShorter(s);
    UntilStops(Skip(s));
    SkipKeepsEnd(s);
    var k, n := Skip(s), Until(Skip(s));
    if n == |k| {
      assert k[..n] == k;
      assert k[|k| - 1] in k;
    }
  }

  lemma {:induction false} SkipConcat(a: string, b: string)
    requires Skip(a) != ""
    ensures Skip(a + b) == Skip(a) + b
  {
    if a[0] == '/' {
      assert (a + b)[1..] == a[1..] + b;
      SkipConcat(a[1..], b);
    }
  }

  lemma {:induction false} SkipAll(a: string, b: string)
    requires Skip(a) == ""
    ensures Skip(a + b) == Skip(b)
  {
    if a == "" {
      assert a + b == b;
    } else {
      assert (a + b)[1..] == a[1..] + b;
      SkipAll(a[1..], b);
    }
  }

  lemma {:induction false} UntilConcat(a: string, b: string)
    requires b == "" || b[0] == '/'
    ensures Until(a + b) == Until(a)
  {
    if a == "" {
      assert a + b == b;
    } else if a[0] != '/' {
      assert (a + b)[1..] == a[1..] + b;
      UntilConcat(a[1..], b);
    }
  }

  lemma NoneLeft(s: string)
    ensures First(s).0 == "" <==> Skip(s) == ""
  {
    SkipShorter(s);
    UntilStops(Skip(s));
  }

  lemma FirstConcat(a: string, b: string)
    requires b == "" || b[0] == '/'
    ensures First(a + b) == if First(a).0 == "" then First(b) else (First(a).0, First(a).1 + b)
    ensures First(a).0 == "" ==> Skip(a) == ""
  {
    NoneLeft(a);
    hide Skip, Until;
    SkipShorter(a);
    UntilStops(Skip(a));
    if Skip(a) == "" {
      SkipAll(a, b);
    } else {
      SkipConcat(a, b);
      UntilConcat(Skip(a), b);
      var k, n := Skip(a), Until(Skip(a));
      assert (k + b)[..n] == k[..n] && (k + b)[n..] == k[n..] + b;
    }
  }

  /** Cutting a name at a slash cuts its component list. */
  lemma {:induction false} SplitConcat(a: string, b: string)
    requires b == "" || b[0] == '/'
    ensures Split(a + b) == Split(a) + Split(b)
    decreases |a|
  {
    hide First;
    FirstConcat(a, b);
    if First(a).0 != "" { SplitConcat(First(a).1, b); }
  }

  lemma SplitEmpty(s: string)
    requires s != "" && s[0] == '/' && Split(s) == []
    ensures Slashed(s)
  {
    SkipShorter(s);
    UntilStops(Skip(s));
    SkipKeepsEnd(s);
  }

  /** The walk resolves what plain resolution with the links left resolves, to the same place; it
      fails where that fails, and otherwise only for length. */
  ghost predicate Agree(w: Outcome, f: Option<seq<Name>>) {
    match w
    case Done(path) => f == Some(path)
    case Failed(err, _) => err == ENAMETOOLONG || f == None
  }

  lemma {:induction false} WalkFollows(fs: Fs, p: seq<Name>, rest: string, links: nat)
    requires links <= MAXSYMLINKS
    ensures Agree(Walk(fs, p, rest, links), Follow(fs, p, Split(rest), Slashed(rest), MAXSYMLINKS - links))
    decreases MAXSYMLINKS - links, |rest|
  {
    hide Render, First, Slashed;
    var (c, more) := First(rest);
    if c != "" {
      FirstSlashed(rest);
      assert Split(rest)[1..] == Split(more);
      if c == "." {
        WalkFollows(fs, p, more, links);
      } else if c == ".." {
        WalkFollows(fs, Pop(p), more, links);
      } else if |Render(p + [c])| < PATH_MAX {
        Needed(more);
        match fs(Render(p + [c]))
        case LinkTo(t) =>
          if links < MAXSYMLINKS && |t| + |more| < PATH_MAX {
            SplitConcat(t, more);
            JoinedSlash(t, more);
            WalkFollows(fs, Base(p, t), t + more, links + 1);
          }
        case Dir(x) => if more == "" || x { WalkFollows(fs, p + [c], more, links); }
        case Other => if more == "" { WalkFollows(fs, p + [c], more, links); }
        case _ =>
      }
    }
  }

  /** Something follows a component exactly when it needs to be a directory. */
  lemma Needed(more: string)
    requires more == "" || more[0] == '/'
    ensures more != "" <==> Split(more) != [] || Slashed(more)
  {
    if more != "" && Split(more) == [] { SplitEmpty(more); }
  }

  lemma JoinedSlash(t: string, more: string)
    ensures Slashed(t + more) == if more == "" then Slashed(t) else Slashed(more)
  {
    if more == "" { assert t + more == t; }
  }

  // A canonical path resolves to itself.

  lemma FirstOfJoin(p: seq<Name>)
    requires p != [] && Good(p[0])
    ensures First(Join(p)) == (p[0], Join(p[1..]))
  {
    var s := Join(p);
    var tail := Join(p[1..]);
    assert s[1..] == p[0] + tail;
    assert p[0][0] in p[0];
    assert Skip(s) == p[0] + tail;
    UntilConcat(p[0], tail);
    UntilWhole(p[0]);
  }

  lemma {:induction false} UntilWhole(s: string)
    requires '/' !in s
    ensures Until(s) == |s|
  {
    if s != "" { UntilWhole(s[1..]); }
  }

  /** The components of a rendered path are the path. */
  lemma {:induction false} SplitRender(p: seq<Name>)
    requires AllGood(p)
    ensures Split(Render(p)) == p && Split(Join(p)) == p
  {
    if p == [] {
      assert First("/") == ("", "") && First("") == ("", "");
    } else {
      FirstOfJoin(p);
      SplitRender(p[1..]);
    }
  }

  lemma {:induction false} WalkPlain(fs: Fs, p: seq<Name>, tail: seq<Name>)
    requires Canonical(fs, p + tail)
    ensures Walk(fs, p, Join(tail), 0) == Done(p + tail)
    decreases |tail|
  {
    if tail == [] {
      assert p + tail == p;
    } else {
      var q := p + [tail[0]];
      assert p + tail == q + tail[1..];
      assert (p + tail)[|p|] == tail[0];
      FirstOfJoin(tail);
      WalkPlain(fs, q, tail[1..]);
      PrefixFits(fs, q, tail[1..]);
    }
  }

  lemma PrefixFits(fs: Fs, q: seq<Name>, tail: seq<Name>)
    requires Canonical(fs, q + tail) && q != []
    ensures |Render(q)| < PATH_MAX && Present(fs(Render(q)))
    ensures tail != [] ==> Searchable(fs(Render(q)))
  {
    assert (q + tail)[..|q|] == q;
    JoinConcat(q, tail);
    if tail != [] { assert Pop(q + tail)[..|q|] == q; }
  }

  lemma {:induction false} JoinConcat(a: seq<Name>, b: seq<Name>)
    ensures Join(a + b) == Join(a) + Join(b)
  {
    if a == [] {
      assert a + b == b;
    } else {
      assert (a + b)[1..] == a[1..] + b;
      JoinConcat(a[1..], b);
    }
  }

  // The whole call.

  datatype Cwd = Cwd(path: seq<Name>) | NoCwd(err: int)

  /** What vde_realpath computes from a name that is not empty. */
  function Resolve(fs: Fs, cwd: Cwd, name: string): Outcome
    requires name != ""
  {
    if name[0] == '/' then Walk(fs, [], name, 0)
    else match cwd
      case NoCwd(err) => Failed(err, "")
      case Cwd(path) => Walk(fs, path, name, 0)
  }

  predicate Starts(fs: Fs, cwd: Cwd) { cwd.Cwd? ==> Home(fs, cwd.path) }

  /** A name that resolves has a canonical answer, at the file the name itself leads to; and
      the answer, taken as a name, resolves to itself from anywhere. */
  lemma ResolveSound(fs: Fs, cwd: Cwd, name: string, elsewhere: Cwd)
    requires name != "" && Starts(fs, cwd) && Resolve(fs, cwd, name).Done?
    ensures var path := Resolve(fs, cwd, name).path;
      && Canonical(fs, path) && Split(Render(path)) == path
      && (name[0] == '/' || cwd.Cwd?)
      && Follow(fs, if name[0] == '/' then [] else cwd.path, Split(name), Slashed(name), MAXSYMLINKS) == Some(path)
      && Resolve(fs, elsewhere, Render(path)) == Done(path)
  {
    hide Canonical, Walk, Follow, Home;
    RootHome(fs);
    var p := if name[0] == '/' then [] else cwd.path;
    WalkCanonical(fs, p, name, 0);
    WalkFollows(fs, p, name, 0);
    CanonicalSplits(fs, Walk(fs, p, name, 0).path);
    SelfResolves(fs, Walk(fs, p, name, 0).path);
  }

  lemma CanonicalSplits(fs: Fs, p: seq<Name>)
    requires Canonical(fs, p)
    ensures Split(Render(p)) == p
  {
    SplitRender(p);
  }

  lemma SelfResolves(fs: Fs, p: seq<Name>)
    requires Canonical(fs, p)
    ensures Walk(fs, [], Render(p), 0) == Done(p)
  {
    if p == [] {
      assert First("/") == ("", "");
    } else {
      assert [] + p == p;
      WalkPlain(fs, [], p);
    }
  }

  // The buffer.

  /** The buffer's text for a stack: after a back-up the slash is left standing. */
  predicate Text(s: string, p: seq<Name>) { s == Render(p) || (p != [] && s == Join(p) + "/") }

  predicate Holds(resolved: array<char>, s: string)
    reads resolved
  {
    |s| < resolved.Length && resolved[..|s|] == s && resolved[|s|] == '\0'
  }

  /** Where a back-up from the end of s stops. */
  predicate BackedTo(s: string, d: nat) {
    if |s| <= 1 then d == |s|
    else 1 <= d < |s| && s[d - 1] == '/' && forall j :: d <= j < |s| - 1 ==> s[j] != '/'
  }

  method BackUp(resolved: array<char>, dest: nat) returns (d: nat)
    requires 1 <= dest <= resolved.Length && resolved[0] == '/'
    ensures BackedTo(resolved[..dest], d)
  {
    d := dest;
    if dest > 1 {
      d := d - 1;
      while resolved[d - 1] != '/'
        invariant 1 <= d < dest
        invariant forall j :: d <= j < dest - 1 ==> resolved[j] != '/'
        decreases d
      {
        d := d - 1;
      }
    }
  }

  /** Backing up removes the last component, from either form of the text. */
  lemma BackUpPops(s: string, p: seq<Name>, d: nat)
    requires Text(s, p) && AllGood(p) && BackedTo(s, d)
    ensures d <= |s| && Text(s[..d], Pop(p)) && (p == [] || d < |s|)
  {
    if p != [] {
      var q, c := Pop(p), p[|p| - 1];
      assert p == q + [c];
      JoinAppend(q, c);
      var k := |Join(q)| + 1;
      assert Good(c);
      assert forall j :: k <= j < k + |c| ==> s[j] == c[j - k];
      assert s[k - 1] == '/';
      assert d == k;
      assert s[..k] == Join(q) + "/";
    }
  }

  method CopyComponent(resolved: array<char>, dest: nat, c: Name) returns (d: nat)
    requires dest + |c| < resolved.Length
    modifies resolved
    ensures d == dest + |c| && Holds(resolved, old(resolved[..dest]) + c)
  {
    var i := 0;
    while i < |c|
      invariant i <= |c| && resolved[..dest + i] == old(resolved[..dest]) + c[..i]
    {
      resolved[dest + i] := c[i];
      i := i + 1;
    }
    d := dest + |c|;
    resolved[d] := '\0';
    assert resolved[..d] == old(resolved[..dest]) + c;
  }

  method Enter(resolved: array<char>, dest: nat, c: Name, ghost p: seq<Name>) returns (d: nat, fits: bool)
    requires resolved.Length == PATH_MAX && 1 <= dest < PATH_MAX && Text(resolved[..dest], p) && AllGood(p)
    modifies resolved
    ensures fits == (|Render(p + [c])| < PATH_MAX)
    ensures if fits then d == |Render(p + [c])| && Holds(resolved, Render(p + [c])) else Holds(resolved, Render(p))
  {
    JoinAppend(p, c);
    d := dest;
    TextEnd(resolved[..dest], p);
    assert Render(p + [c]) == Join(p) + "/" + c;
    assert Render(p) == if Join(p) == "" then "/" else Join(p);
    hide Join, Render, Good, Text;
    if resolved[d - 1] != '/' {
      resolved[d] := '/';
      d := d + 1;
    }
    assert resolved[..d] == Join(p) + "/";
    fits := d + |c| < PATH_MAX;
    if !fits {
      if d > 1 { d := d - 1; }
      resolved[d] := '\0';
      assert resolved[..d] == Render(p);
    } else {
      d := CopyComponent(resolved, d, c);
    }
  }

  lemma TextEnd(s: string, p: seq<Name>)
    requires Text(s, p) && AllGood(p)
    ensures s != "" && if s[|s| - 1] == '/' then s == Join(p) + "/" else s == Join(p)
  {
    if p != [] {
      var c := p[|p| - 1];
      assert p == Pop(p) + [c];
      JoinAppend(Pop(p), c);
      assert Good(c) && c[|c| - 1] in c;
    }
  }

  method SkipSlashes(s: string) returns (start: nat)
    ensures start <= |s| && s[start..] == Skip(s)
  {
    start := 0;
    while start < |s| && s[start] == '/'
      invariant start <= |s| && Skip(s[start..]) == Skip(s)
    {
      assert s[start..][1..] == s[start + 1..];
      start := start + 1;
    }
  }

  method FindEnd(s: string) returns (end: nat)
    ensures end == Until(s) <= |s|
  {
    end := 0;
    while end < |s| && s[end] != '/'
      invariant end <= |s| && Until(s) == end + Until(s[end..])
    {
      assert s[end..][1..] == s[end + 1..];
      end := end + 1;
    }
  }

  /** The two scanning loops. */
  method Scan(s: string) returns (c: Name, more: string)
    ensures (c, more) == First(s)
  {
    var start := SkipSlashes(s);
    var len := FindEnd(s[start..]);
    c, more := s[start..][..len], s[start..][len..];
  }

  /** Where the loop stands: the buffer's text is the stack's, and the walk from here ends as the
      whole walk does. */
  ghost predicate At(fs: Fs, whole: Outcome, text: string, p: seq<Name>, rest: string, links: nat) {
    Text(text, p) && AllGood(p) && 1 <= |text| < PATH_MAX && links <= MAXSYMLINKS && Walk(fs, p, rest, links) == whole
  }

  lemma FirstSlash(s: string, p: seq<Name>)
    requires Text(s, p)
    ensures s != "" && s[0] == '/'
  {}

  /** After a link: from the root, or from the directory the link is in. */
  method Restart(resolved: array<char>, dest: nat, target: string, ghost p: seq<Name>, ghost c: Name) returns (d: nat)
    requires dest < resolved.Length && resolved[..dest] == Render(p + [c]) && AllGood(p) && Good(c)
    ensures 1 <= d <= dest && Text(resolved[..d], Base(p, target))
  {
    assert Pop(p + [c]) == p && AllGood(p + [c]);
    FirstSlash(resolved[..dest], p + [c]);
    hide Good, Join, BackedTo;
    if target != "" && target[0] == '/' {
      d := 1;
    } else {
      d := BackUp(resolved, dest);
      BackUpPops(resolved[..dest], p + [c], d);
      FirstSlash(resolved[..dest][..d], p);
      assert resolved[..dest][..d] == resolved[..d];
    }
  }

  lemma Shorter(rest: string)
    ensures Good(First(rest).0) ==> |First(rest).1| < |rest|
  {}

  lemma Entered(p: seq<Name>, c: Name)
    requires AllGood(p) && Good(c)
    ensures 1 <= |Render(p + [c])| && Text(Render(p + [c]), p + [c]) && AllGood(p + [c])
  {
    JoinAppend(p, c);
  }

  /** One step of the walk, at a component that is neither `.` nor `..`. */
  lemma WalkOne(fs: Fs, p: seq<Name>, rest: string, links: nat)
    requires links <= MAXSYMLINKS && Good(First(rest).0)
    ensures var (c, more) := First(rest); var here := Render(p + [c]); var w := Walk(fs, p, rest, links);
      if |here| >= PATH_MAX then w == Failed(ENAMETOOLONG, Render(p))
      else match fs(here)
        case Fails(e) => w == Failed(e, here)
        case Unreadable(e) => w == Failed(if links == MAXSYMLINKS then ELOOP else e, here)
        case LinkTo(t) =>
          if links == MAXSYMLINKS then w == Failed(ELOOP, here)
          else if |t| + |more| >= PATH_MAX then w == Failed(ENAMETOOLONG, here)
          else w == Walk(fs, Base(p, t), t + more, links + 1)
        case Dir(x) => if more != "" && !x then w == Failed(EACCES, here) else w == Walk(fs, p + [c], more, links)
        case Other => if more != "" then w == Failed(ENOTDIR, here) else w == Walk(fs, p + [c], more, links)
  {}

  /** What the loop does with a component that is neither `.` nor `..`. */
  method Step(fs: Fs, resolved: array<char>, dest: nat, c: Name, more: string, links: nat, ghost p: seq<Name>,
              ghost rest: string, ghost whole: Outcome)
    returns (fail: Option<int>, d: nat, name: string, n: nat, ghost q: seq<Name>)
    requires resolved.Length == PATH_MAX && dest < PATH_MAX && At(fs, whole, resolved[..dest], p, rest, links)
    requires First(rest) == (c, more) && Good(c)
    modifies resolved
    ensures match fail
      case Some(e) => whole.Failed? && whole.err == e && Holds(resolved, whole.at)
      case None => d < PATH_MAX && At(fs, whole, resolved[..d], q, name, n)
                   && links <= n && (n > links || |name| < |rest|)
  {
    fail, d, name, n, q := None, 0, more, links, p;
    WalkOne(fs, p, rest, links);
    hide Walk, Join, Good, Render, Text;
    var fits;
    d, fits := Enter(resolved, dest, c, p);
    if !fits {
      fail := Some(ENAMETOOLONG);
    } else {
      fail, d, name, n, q := Look(fs, resolved, d, c, more, links, p, rest, whole);
    }
  }

  /** What becomes of the component now in the buffer. */
  method Look(fs: Fs, resolved: array<char>, dest: nat, c: Name, more: string, links: nat, ghost p: seq<Name>,
              ghost rest: string, ghost whole: Outcome)
    returns (fail: Option<int>, d: nat, name: string, n: nat, ghost q: seq<Name>)
    requires resolved.Length == PATH_MAX && Holds(resolved, Render(p + [c])) && dest == |Render(p + [c])|
    requires links <= MAXSYMLINKS && Walk(fs, p, rest, links) == whole && First(rest) == (c, more) && AllGood(p)
      && Good(c)
    ensures match fail
      case Some(e) => whole.Failed? && whole.err == e && Holds(resolved, whole.at)
      case None => d < PATH_MAX && At(fs, whole, resolved[..d], q, name, n)
                   && links <= n && (n > links || |name| < |rest|)
  {
    fail, d, name, n, q := None, dest, more, links, p + [c];
    Shorter(rest);
    hide Walk, First, Join, Good, Render, Text, AllGood, At, Base;
    WalkOne(fs, p, rest, links);
    Entered(p, c);
    ghost var here := Render(p + [c]);
    assert |here| < PATH_MAX && resolved[..d] == here;
    hide Holds;
    match fs(resolved[..d]) {
      case Fails(e) => fail := Some(e);
      case Unreadable(e) => fail := Some(if links + 1 > MAXSYMLINKS then ELOOP else e);
      case LinkTo(t) =>
        n := links + 1;
        if n > MAXSYMLINKS { fail := Some(ELOOP); return; }
        if |t| + |more| >= PATH_MAX { fail := Some(ENAMETOOLONG); return; }
        name := t + more;
        d := Restart(resolved, d, t, p, c);
        q := Base(p, t);
        AtBase(fs, whole, resolved[..d], p, t, name, n);
      case Dir(x) =>
        if more != "" && !x { fail := Some(EACCES); return; }
        AtHere(fs, whole, here, q, name, n);
      case Other =>
        if more != "" { fail := Some(ENOTDIR); return; }
        AtHere(fs, whole, here, q, name, n);
    }
  }

  lemma AtHere(fs: Fs, whole: Outcome, text: string, q: seq<Name>, rest: string, links: nat)
    requires Text(text, q) && AllGood(q) && 1 <= |text| < PATH_MAX && links <= MAXSYMLINKS
      && Walk(fs, q, rest, links) == whole
    ensures At(fs, whole, text, q, rest, links)
  {
    hide Walk;
  }

  lemma AtBase(fs: Fs, whole: Outcome, text: string, p: seq<Name>, target: string, rest: string, links: nat)
    requires AllGood(p) && Text(text, Base(p, target)) && 1 <= |text| < PATH_MAX && links <= MAXSYMLINKS
    requires Walk(fs, Base(p, target), rest, links) == whole
    ensures At(fs, whole, text, Base(p, target), rest, links)
  {
    hide Walk;
  }

  method DotDot(ghost fs: Fs, resolved: array<char>, dest: nat, ghost more: string, ghost links: nat,
                ghost p: seq<Name>, ghost rest: string, ghost whole: Outcome) returns (d: nat)
    requires resolved.Length == PATH_MAX && dest < PATH_MAX && At(fs, whole, resolved[..dest], p, rest, links)
    requires First(rest) == ("..", more)
    ensures d < PATH_MAX && At(fs, whole, resolved[..d], Pop(p), more, links)
  {
    FirstSlash(resolved[..dest], p);
    d := BackUp(resolved, dest);
    BackUpPops(resolved[..dest], p, d);
    FirstSlash(resolved[..dest][..d], Pop(p));
    assert resolved[..dest][..d] == resolved[..d];
  }

  lemma AtEnd(fs: Fs, whole: Outcome, text: string, p: seq<Name>, rest: string, links: nat)
    requires At(fs, whole, text, p, rest, links) && (rest == "" || First(rest).0 == "")
    ensures whole == Done(p) && AllGood(p) && Text(text, p)
  {
    if rest == "" { assert First(rest).0 == ""; }
  }

  lemma AtDot(fs: Fs, whole: Outcome, text: string, p: seq<Name>, rest: string, links: nat)
    requires At(fs, whole, text, p, rest, links) && First(rest).0 == "."
    ensures At(fs, whole, text, p, First(rest).1, links)
  {}

  /** vde_realpath; `memory` says whether its three allocations succeed. */
  method Realpath(fs: Fs, cwd: Cwd, memory: bool, name: string, resolved: array<char>) returns (fail: Option<int>)
    requires resolved.Length == PATH_MAX
    requires cwd.Cwd? ==> AllGood(cwd.path) && |Render(cwd.path)| < PATH_MAX
    modifies resolved
    ensures name == "" ==> fail == Some(ENOENT)
    ensures name != "" && !memory ==> fail == Some(ENOMEM)
    ensures name == "" || !memory ==> resolved[..] == old(resolved[..])
    ensures name != "" && memory ==>
      match Resolve(fs, cwd, name)
      case Done(path) => fail == None && Holds(resolved, Render(path))
      case Failed(err, at) => fail == Some(err) && Holds(resolved, at)
  {
    fail := None;
    if name == "" { return Some(ENOENT); }
    if !memory { return Some(ENOMEM); }
    var dest := 1;
    ghost var p: seq<Name> := [];
    if name[0] != '/' {
      if cwd.NoCwd? {
        resolved[0] := '\0';
        return Some(cwd.err);
      }
      dest := CopyComponent(resolved, 0, Render(cwd.path));
      p := cwd.path;
    } else {
      resolved[0] := '/';
    }
    FirstSlash(resolved[..dest], p);
    fail := Loop(fs, resolved, dest, name, p);
  }

  method Loop(fs: Fs, resolved: array<char>, start: nat, name: string, ghost path: seq<Name>)
    returns (fail: Option<int>)
    requires resolved.Length == PATH_MAX && 1 <= start < PATH_MAX && Text(resolved[..start], path) && AllGood(path)
    modifies resolved
    ensures match Walk(fs, path, name, 0)
      case Done(path) => fail == None && Holds(resolved, Render(path))
      case Failed(err, at) => fail == Some(err) && Holds(resolved, at)
  {
    fail := None;
    ghost var whole := Walk(fs, path, name, 0);
    var dest: nat, rest, links: nat := start, name, 0;
    ghost var p := path;
    AtStart(fs, resolved[..dest], p, rest);
    hide At, Text, AllGood, First;
    while rest != ""
      invariant dest < PATH_MAX && At(fs, whole, resolved[..dest], p, rest, links)
      invariant fail == None
      decreases MAXSYMLINKS - links, |rest|
    {
      var c, more := Scan(rest);
      if c == "" { break; }
      if c == "." {
        AtDot(fs, whole, resolved[..dest], p, rest, links);
        rest := more;
      } else if c == ".." {
        dest := DotDot(fs, resolved, dest, more, links, p, rest, whole);
        rest, p := more, Pop(p);
      } else {
        fail, dest, rest, links, p := Step(fs, resolved, dest, c, more, links, p, rest, whole);
        if fail.Some? { return; }
      }
    }
    AtEnd(fs, whole, resolved[..dest], p, rest, links);
    Finish(resolved, dest, p);
  }

  lemma AtStart(fs: Fs, text: string, p: seq<Name>, rest: string)
    requires Text(text, p) && AllGood(p) && 1 <= |text| < PATH_MAX
    ensures At(fs, Walk(fs, p, rest, 0), text, p, rest, 0)
  {}

  /** After the loop: a slash left standing goes. */
  method Finish(resolved: array<char>, end: nat, ghost p: seq<Name>)
    requires end < resolved.Length && Text(resolved[..end], p) && AllGood(p)
    modifies resolved
    ensures Holds(resolved, Render(p))
  {
    var dest := end;
    TextEnd(resolved[..dest], p);
    if dest > 1 && resolved[dest - 1] == '/' { dest := dest - 1; }
    resolved[dest] := '\0';
    assert resolved[..dest] == Render(p);
  }
}
