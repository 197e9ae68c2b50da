/** `safeJoin(base, ...parts)`: joins path pieces the way POSIX `path.join`
    does, resolves the result against the working directory like
    `path.resolve`, and refuses any result that is not strictly below the
    resolved base. Paths are handled as their `/`-separated segments. */
module SafeJoin {
  import opened Wrappers
  import Text

  datatype JoinError = IllegalPath

  /** A segment that names a directory entry. */
  predicate IsName(s: string) {
    s != "" && s != "." && s != ".." && '/' !in s
  }

  predicate AllNames(segs: seq<string>) {
    forall i :: 0 <= i < |segs| ==> IsName(segs[i])
  }

  predicate NoSlash(segs: seq<string>) {
    forall i :: 0 <= i < |segs| ==> '/' !in segs[i]
  }

  /** The pieces of `p` between its slashes, empty pieces included. */
  function Split(p: string): (r: seq<string>)
    ensures r != [] && NoSlash(r)
  {
    if p == [] then [""]
    else
      var rest := Split(p[1..]);
      if p[0] == '/' then [""] + rest
      else
        var first := [p[0]] + rest[0];
        assert '/' !in first by {
          assert forall k :: 1 <= k < |first| ==> first[k] == rest[0][k - 1];
        }
        [first] + rest[1..]
  }

  /** The segments glued back together with slashes. */
  function JoinWith(segs: seq<string>): string
    requires segs != []
  {
    if |segs| == 1 then segs[0] else segs[0] + "/" + JoinWith(segs[1..])
  }

  // ---------------------------------------------------------------- resolution

  /** One segment of an absolute path: an empty or `.` segment stays, `..`
      climbs one level but never above the root, a name descends. */
  function Step(stack: seq<string>, seg: string): seq<string> {
    if seg == "" || seg == "." then stack
    else if seg == ".." then (if stack == [] then [] else stack[..|stack| - 1])
    else stack + [seg]
  }

  function Walk(stack: seq<string>, segs: seq<string>): seq<string>
    decreases |segs|
  {
    if segs == [] then stack else Walk(Step(stack, segs[0]), segs[1..])
  }

  /** One segment of a relative path: as `Step`, except that a `..` with
      nothing left to climb out of is kept. */
  function RelStep(stack: seq<string>, seg: string): seq<string> {
    if seg == "" || seg == "." then stack
    else if seg == ".." then
      (if stack != [] && stack[|stack| - 1] != ".." then stack[..|stack| - 1] else stack + [".."])
    else stack + [seg]
  }

  function RelWalk(stack: seq<string>, segs: seq<string>): seq<string>
    decreases |segs|
  {
    if segs == [] then stack else RelWalk(RelStep(stack, segs[0]), segs[1..])
  }

  /** `path.normalize` on POSIX. */
  function Normalize(path: string): string {
    if path == [] then "."
    else
      var absolute := path[0] == '/';
      var trailing := path[|path| - 1] == '/';
      var segs := if absolute then Walk([], Split(path)) else RelWalk([], Split(path));
      if segs == [] then (if absolute then "/" else if trailing then "./" else ".")
      else (if absolute then "/" else "") + JoinWith(segs) + (if trailing then "/" else "")
  }

  /** The non-empty arguments of `path.join`, glued with slashes. */
  function Glued(args: seq<string>): Option<string> {
    if args == [] then None
    else
      var before := Glued(args[..|args| - 1]);
      var last := args[|args| - 1];
      if last == "" then before
      else if before.None? then Some(last)
      else Some(before.value + "/" + last)
  }

  /** `path.join` on POSIX. */
  function PathJoin(args: seq<string>): string {
    var g := Glued(args);
    if g.None? then "." else Normalize(g.value)
  }

  /** The segments of `path.resolve(p)` when the working directory is `cwd`,
      an absolute path. */
  function ResolvedStack(cwd: string, p: string): seq<string> {
    if p != [] && p[0] == '/' then Walk([], Split(p)) else Walk(Walk([], Split(cwd)), Split(p))
  }

  function Render(stack: seq<string>): string {
    if stack == [] then "/" else "/" + JoinWith(stack)
  }

  /** `path.resolve(p)` on POSIX. */
  function Resolve(cwd: string, p: string): string {
    Render(ResolvedStack(cwd, p))
  }

  /** `safeJoin`. */
  function SafeJoin(cwd: string, base: string, parts: seq<string>): Result<string, JoinError> {
    var p := PathJoin([base] + parts);
    var normalizedBase := Resolve(cwd, base) + "/";
    var normalizedPath := Resolve(cwd, p);
    if !Text.StartsWith(normalizedPath, normalizedBase) then Failure(IllegalPath) else Success(normalizedPath)
  }

  // ---------------------------------------------------------------- segments and strings

  lemma {:induction false} SplitConcat(a: string, b: string)
    ensures Split(a + "/" + b) == Split(a) + Split(b)
  {
    var t := a + "/" + b;
    if a == [] {
      assert t == "/" + b && t[1..] == b;
    } else {
      assert t[0] == a[0] && t[1..] == a[1..] + "/" + b;
      SplitConcat(a[1..], b);
      var ra, rb := Split(a[1..]), Split(b);
      if a[0] != '/' {
        assert (ra + rb)[0] == ra[0];
        assert (ra + rb)[1..] == ra[1..] + rb;
      }
    }
  }

  lemma {:induction false} SplitPlain(a: string)
    requires '/' !in a
    ensures Split(a) == [a]
  {
    if a != [] {
      SplitPlain(a[1..]);
      assert [a[0]] + a[1..] == a;
    }
  }

  lemma {:induction false} SplitJoin(segs: seq<string>)
    requires segs != [] && NoSlash(segs)
    ensures Split(JoinWith(segs)) == segs
  {
    if |segs| == 1 {
      SplitPlain(segs[0]);
    } else {
      SplitPlain(segs[0]);
      SplitJoin(segs[1..]);
      SplitConcat(segs[0], JoinWith(segs[1..]));
    }
  }

  lemma {:induction false} JoinWithConcat(a: seq<string>, b: seq<string>)
    requires a != [] && b != []
    ensures JoinWith(a + b) == JoinWith(a) + "/" + JoinWith(b)
  {
    if |a| > 1 {
      assert (a + b)[1..] == a[1..] + b;
      JoinWithConcat(a[1..], b);
    }
  }

  lemma {:induction false} JoinWithStart(segs: seq<string>)
    requires segs != [] && segs[0] != ""
    ensures JoinWith(segs) != [] && JoinWith(segs)[0] == segs[0][0]
  {
  }

  lemma {:induction false} WalkAppend(s: seq<string>, a: seq<string>, b: seq<string>)
    ensures Walk(s, a + b) == Walk(Walk(s, a), b)
    decreases |a|
  {
    if a == [] {
      assert a + b == b;
    } else {
      assert (a + b)[0] == a[0] && (a + b)[1..] == a[1..] + b;
      WalkAppend(Step(s, a[0]), a[1..], b);
    }
  }

  /** Names only descend. */
  lemma {:induction false} WalkNames(s: seq<string>, names: seq<string>)
    requires AllNames(names)
    ensures Walk(s, names) == s + names
    decreases |names|
  {
    if names != [] {
      WalkNames(s + [names[0]], names[1..]);
      assert s + [names[0]] + names[1..] == s + names;
    }
  }

  lemma {:induction false} WalkKeepsNames(s: seq<string>, segs: seq<string>)
    requires AllNames(s) && NoSlash(segs)
    ensures AllNames(Walk(s, segs))
    decreases |segs|
  {
    if segs != [] {
      var n := Step(s, segs[0]);
      assert AllNames(n) by {
        if segs[0] == ".." && s != [] {
          assert forall i :: 0 <= i < |n| ==> n[i] == s[i];
        } else if segs[0] != "" && segs[0] != "." && segs[0] != ".." {
          assert IsName(segs[0]);
        }
      }
      WalkKeepsNames(n, segs[1..]);
    }
  }

  /** What a relative walk accumulates: names and leading-or-not `..`. */
  predicate RelNormal(stack: seq<string>) {
    forall i :: 0 <= i < |stack| ==> IsName(stack[i]) || stack[i] == ".."
  }

  lemma {:induction false} RelWalkNormal(s: seq<string>, segs: seq<string>)
    requires RelNormal(s) && NoSlash(segs)
    ensures RelNormal(RelWalk(s, segs))
    decreases |segs|
  {
    if segs != [] {
      var n := RelStep(s, segs[0]);
      assert RelNormal(n) by {
        if segs[0] == ".." && s != [] && s[|s| - 1] != ".." {
          assert forall i :: 0 <= i < |n| ==> n[i] == s[i];
        } else if segs[0] != "" && segs[0] != "." && segs[0] != ".." {
          assert IsName(segs[0]);
        }
      }
      RelWalkNormal(n, segs[1..]);
    }
  }

  /** Resolving a relatively normalised stack is resolving the raw segments. */
  lemma RelStepResolves(r: seq<string>, n: seq<string>, seg: string)
    requires RelNormal(n)
    ensures Walk(r, RelStep(n, seg)) == Step(Walk(r, n), seg)
  {
    if seg == "" || seg == "." {
    } else if seg == ".." {
      if n != [] && n[|n| - 1] != ".." {
        var init, x := n[..|n| - 1], n[|n| - 1];
        assert n == init + [x];
        WalkAppend(r, init, [x]);
        assert Walk(Walk(r, init), [x]) == Step(Walk(r, init), x);
        assert Step(Walk(r, init), x) == Walk(r, init) + [x];
        assert (Walk(r, init) + [x])[..|Walk(r, init) + [x]| - 1] == Walk(r, init);
      } else {
        WalkAppend(r, n, [".."]);
      }
    } else {
      WalkAppend(r, n, [seg]);
    }
  }

  lemma {:induction false} RelWalkResolves(r: seq<string>, n: seq<string>, segs: seq<string>)
    requires RelNormal(n) && NoSlash(segs)
    ensures Walk(r, RelWalk(n, segs)) == Walk(Walk(r, n), segs)
    decreases |segs|
  {
    if segs != [] {
      var n' := RelStep(n, segs[0]);
      assert RelNormal(n') by {
        if segs[0] == ".." && n != [] && n[|n| - 1] != ".." {
          assert forall i :: 0 <= i < |n'| ==> n'[i] == n[i];
        }
      }
      RelWalkResolves(r, n', segs[1..]);
      RelStepResolves(r, n, segs[0]);
    }
  }

  /** Split of a normalised path, slash-separated pieces and all. */
  lemma SplitFramed(segs: seq<string>, lead: bool, trail: bool)
    requires segs != [] && NoSlash(segs)
    ensures Split((if lead then "/" else "") + JoinWith(segs) + (if trail then "/" else ""))
         == (if lead then [""] else []) + segs + (if trail then [""] else [])
  {
    var j := JoinWith(segs);
    SplitJoin(segs);
    var mid := (if lead then "/" else "") + j;
    if lead {
      assert mid == "" + "/" + j;
      SplitConcat("", j);
      assert Split(mid) == [""] + segs;
    } else {
      assert mid == j;
    }
    assert Split(mid) == (if lead then [""] else []) + segs;
    if trail {
      assert mid + "/" == mid + "/" + "";
      SplitConcat(mid, "");
      assert Split(mid + "/") == Split(mid) + [""];
    } else {
      assert mid + "" == mid;
    }
  }

  /** `/`, `.` and `./` name the root, and the directory itself. */
  lemma DotSegments(c: seq<string>)
    ensures Walk([], Split("/")) == []
    ensures Walk(c, Split(".")) == c && Walk(c, Split("./")) == c
  {
    assert "/" == "" + "/" + "";
    SplitConcat("", "");
    assert Split("/") == ["", ""];
    SplitPlain(".");
    assert "./" == "." + "/" + "";
    SplitConcat(".", "");
    assert Split("./") == [".", ""];
  }

  lemma NormalizeAbsolute(cwd: string, p: string)
    requires p != [] && p[0] == '/'
    ensures ResolvedStack(cwd, Normalize(p)) == ResolvedStack(cwd, p)
  {
    var n := Walk([], Split(p));
    WalkKeepsNames([], Split(p));
    var trailing := p[|p| - 1] == '/';
    if n == [] {
      assert Normalize(p) == "/";
      DotSegments([]);
    } else {
      var q := Normalize(p);
      var tail := if trailing then [""] else [];
      assert q == "/" + JoinWith(n) + (if trailing then "/" else "");
      SplitFramed(n, true, trailing);
      assert Split(q) == [""] + n + tail;
      assert q[0] == '/';
      WalkAppend([], [""] + n, tail);
      WalkAppend([], [""], n);
      WalkNames([], n);
      assert Walk(n, tail) == n;
    }
  }

  lemma NormalizeRelative(cwd: string, p: string)
    requires p != [] && p[0] != '/'
    ensures ResolvedStack(cwd, Normalize(p)) == ResolvedStack(cwd, p)
  {
    var c := Walk([], Split(cwd));
    var n := RelWalk([], Split(p));
    RelWalkNormal([], Split(p));
    RelWalkResolves(c, [], Split(p));
    assert Walk(c, n) == Walk(c, Split(p));
    var trailing := p[|p| - 1] == '/';
    if n == [] {
      DotSegments(c);
      assert Normalize(p) == (if trailing then "./" else ".");
    } else {
      assert Normalize(p) == JoinWith(n) + (if trailing then "/" else "");
      RelativeFormResolves(cwd, n, trailing);
    }
  }

  /** A relative normal form resolves to its segments below the working directory. */
  lemma RelativeFormResolves(cwd: string, n: seq<string>, trailing: bool)
    requires n != [] && RelNormal(n)
    ensures ResolvedStack(cwd, JoinWith(n) + (if trailing then "/" else "")) == Walk(Walk([], Split(cwd)), n)
  {
    var c := Walk([], Split(cwd));
    var q := JoinWith(n) + (if trailing then "/" else "");
    var tail := if trailing then [""] else [];
    assert q == "" + JoinWith(n) + (if trailing then "/" else "");
    assert NoSlash(n);
    SplitFramed(n, false, trailing);
    assert Split(q) == n + tail;
    JoinWithStart(n);
    assert q[0] != '/';
    WalkAppend(c, n, tail);
    assert Walk(Walk(c, n), tail) == Walk(c, n);
  }

  /** `path.resolve` gives the same directory for a path and its normal form. */
  lemma NormalizeResolves(cwd: string, p: string)
    ensures ResolvedStack(cwd, Normalize(p)) == ResolvedStack(cwd, p)
  {
    if p == [] {
      DotSegments(Walk([], Split(cwd)));
      assert Split("") == [""];
    } else if p[0] == '/' {
      NormalizeAbsolute(cwd, p);
    } else {
      NormalizeRelative(cwd, p);
    }
  }

  // ---------------------------------------------------------------- containment

  /** No resolved path lies below the root's `//`. */
  lemma NothingBelowRoot(p: seq<string>)
    requires AllNames(p)
    ensures !Text.StartsWith(Render(p), Render([]) + "/")
  {
    if p != [] {
      JoinWithStart(p);
      assert Render(p)[1] == p[0][0];
    }
  }

  lemma ExtensionIsBelow(b: seq<string>, p: seq<string>)
    requires b != [] && |b| < |p| && p[..|b|] == b
    ensures Text.StartsWith(Render(p), Render(b) + "/")
  {
    var rest := p[|b|..];
    assert p == b + rest;
    JoinWithConcat(b, rest);
    assert Render(p) == Render(b) + "/" + JoinWith(rest);
  }

  lemma BelowIsExtension(b: seq<string>, p: seq<string>)
    requires AllNames(b) && AllNames(p) && b != []
    requires Text.StartsWith(Render(p), Render(b) + "/")
    ensures |b| < |p| && p[..|b|] == b
  {
    var nb := Render(b) + "/";
    assert p != [];
    var jb, jp := JoinWith(b), JoinWith(p);
    var t := jp[|jb| + 1..];
    assert jp == jb + "/" + t by {
      assert Render(p) == "/" + jp;
      assert Render(p)[..|nb|] == nb;
      assert jp[..|jb| + 1] == Render(p)[1..|nb|];
      assert nb[1..] == jb + "/";
    }
    SplitJoin(p);
    SplitJoin(b);
    SplitConcat(jb, t);
    assert p == b + Split(t);
  }

  /** The string test of `safeJoin` is the segment test "strictly below". */
  lemma BelowIff(b: seq<string>, p: seq<string>)
    requires AllNames(b) && AllNames(p)
    ensures Text.StartsWith(Render(p), Render(b) + "/") <==> b != [] && |b| < |p| && p[..|b|] == b
  {
    if b == [] {
      NothingBelowRoot(p);
    } else if |b| < |p| && p[..|b|] == b {
      ExtensionIsBelow(b, p);
    } else if Text.StartsWith(Render(p), Render(b) + "/") {
      BelowIsExtension(b, p);
    }
  }

  /** `safeJoin` succeeds exactly when the resolved result lies strictly below
      the resolved base (which must not be the root), and the result is then
      that resolved path. */
  lemma SafeJoinMeaning(cwd: string, base: string, parts: seq<string>)
    ensures var b := ResolvedStack(cwd, base);
      var p := ResolvedStack(cwd, PathJoin([base] + parts));
      && (SafeJoin(cwd, base, parts).Success? <==> b != [] && |b| < |p| && p[..|b|] == b)
      && (SafeJoin(cwd, base, parts).Success? ==> SafeJoin(cwd, base, parts).value == Render(p))
  {
    StacksAreNames(cwd, base);
    StacksAreNames(cwd, PathJoin([base] + parts));
    BelowIff(ResolvedStack(cwd, base), ResolvedStack(cwd, PathJoin([base] + parts)));
  }

  lemma StacksAreNames(cwd: string, p: string)
    ensures AllNames(ResolvedStack(cwd, p))
  {
    WalkKeepsNames([], Split(p));
    WalkKeepsNames([], Split(cwd));
    WalkKeepsNames(Walk([], Split(cwd)), Split(p));
  }

  /** A returned path is absolute and has no empty, `.` or `..` segment. */
  lemma ResultIsClean(cwd: string, base: string, parts: seq<string>)
    requires SafeJoin(cwd, base, parts).Success?
    ensures var r := SafeJoin(cwd, base, parts).value;
      && r != [] && r[0] == '/'
      && forall i :: 1 <= i < |Split(r)| ==> IsName(Split(r)[i])
  {
    var p := ResolvedStack(cwd, PathJoin([base] + parts));
    StacksAreNames(cwd, PathJoin([base] + parts));
    SafeJoinMeaning(cwd, base, parts);
    assert p != [];
    SplitFramed(p, true, false);
    assert Render(p) == "/" + JoinWith(p) + "";
    assert Split(Render(p)) == [""] + p;
  }

  /** Joining nothing onto the base, or anything that leads back to it, is
      refused: the base itself is not strictly below itself. */
  lemma BaseItselfRefused(cwd: string, base: string, parts: seq<string>)
    requires ResolvedStack(cwd, PathJoin([base] + parts)) == ResolvedStack(cwd, base)
    ensures SafeJoin(cwd, base, parts) == Failure(IllegalPath)
  {
    SafeJoinMeaning(cwd, base, parts);
  }

  lemma NoPartsRefused(cwd: string, base: string)
    ensures SafeJoin(cwd, base, []) == Failure(IllegalPath)
  {
    assert [base] + [] == [base];
    assert Glued([base]) == (if base == "" then None else Some(base)) by {
      assert [base][..0] == [];
    }
    if base != "" {
      NormalizeResolves(cwd, base);
    } else {
      SplitPlain(".");
    }
    BaseItselfRefused(cwd, base, []);
  }

  /** The segments of three slash-free names after a slash. */
  lemma SplitTwoNames(x: string, y: string)
    requires '/' !in x && '/' !in y
    ensures Split("/" + x + "/" + y) == ["", x, y]
  {
    assert "/" + x + "/" + y == "" + "/" + (x + "/" + y);
    SplitConcat("", x + "/" + y);
    SplitConcat(x, y);
    SplitPlain(x);
    SplitPlain(y);
  }

  lemma SplitFourPieces(a: string, b: string, c: string, d: string)
    requires '/' !in a && '/' !in b && '/' !in c && '/' !in d
    ensures Split(a + "/" + b + "/" + c + "/" + d) == [a, b, c, d]
  {
    assert a + "/" + b + "/" + c + "/" + d == a + "/" + (b + "/" + (c + "/" + d));
    SplitConcat(a, b + "/" + (c + "/" + d));
    SplitConcat(b, c + "/" + d);
    SplitConcat(c, d);
    SplitPlain(a);
    SplitPlain(b);
    SplitPlain(c);
    SplitPlain(d);
  }

  lemma EscapeWalk(app: string, uploads: string, etc: string, passwd: string)
    requires IsName(app) && IsName(uploads) && IsName(etc) && IsName(passwd)
    ensures Walk([app, uploads], ["..", "..", etc, passwd]) == [etc, passwd]
  {
    assert Walk([app, uploads], ["..", "..", etc, passwd]) == Walk([app], ["..", etc, passwd]);
    assert Walk([app], ["..", etc, passwd]) == Walk([], [etc, passwd]);
    WalkNames([], [etc, passwd]);
  }

  /** Climbing out of the base is refused: `/app/uploads` joined with
      `../../etc/passwd` resolves to `/etc/passwd`. */
  lemma EscapeRefused(cwd: string, app: string, uploads: string, etc: string, passwd: string)
    requires IsName(app) && IsName(uploads) && IsName(etc) && IsName(passwd)
    ensures var base := "/" + app + "/" + uploads;
      var part := ".." + "/" + ".." + "/" + etc + "/" + passwd;
      && ResolvedStack(cwd, PathJoin([base, part])) == [etc, passwd]
      && SafeJoin(cwd, base, [part]) == Failure(IllegalPath)
  {
    var base := "/" + app + "/" + uploads;
    var part := ".." + "/" + ".." + "/" + etc + "/" + passwd;
    SplitTwoNames(app, uploads);
    WalkAppend([], [""], [app, uploads]);
    WalkNames([], [app, uploads]);
    assert Glued([base, part]) == Some(base + "/" + part) by {
      assert [base, part][..1] == [base];
      assert [base][..0] == [];
      assert Glued([base]) == Some(base);
    }
    NormalizeResolves(cwd, base + "/" + part);
    SplitConcat(base, part);
    SplitFourPieces("..", "..", etc, passwd);
    WalkAppend([], Split(base), Split(part));
    EscapeWalk(app, uploads, etc, passwd);
    assert (base + "/" + part)[0] == '/';
    assert base[0] == '/';
    assert ResolvedStack(cwd, PathJoin([base, part])) == [etc, passwd];
    SafeJoinMeaning(cwd, base, [part]);
    assert [base] + [part] == [base, part];
  }

  lemma ChildStacks(cwd: string, app: string, uploads: string, file: string)
    requires IsName(app) && IsName(uploads) && IsName(file)
    ensures var base := "/" + app + "/" + uploads;
      && ResolvedStack(cwd, base) == [app, uploads]
      && ResolvedStack(cwd, PathJoin([base, file])) == [app, uploads, file]
  {
    var base := "/" + app + "/" + uploads;
    SplitTwoNames(app, uploads);
    WalkAppend([], [""], [app, uploads]);
    WalkNames([], [app, uploads]);
    assert Glued([base, file]) == Some(base + "/" + file) by {
      assert [base, file][..1] == [base];
      assert [base][..0] == [];
      assert Glued([base]) == Some(base);
    }
    NormalizeResolves(cwd, base + "/" + file);
    SplitConcat(base, file);
    SplitPlain(file);
    WalkAppend([], Split(base), Split(file));
    WalkNames([app, uploads], [file]);
    assert (base + "/" + file)[0] == '/';
    assert base[0] == '/';
  }

  lemma RenderThree(a: string, b: string, c: string)
    ensures Render([a, b, c]) == "/" + a + "/" + b + "/" + c
  {
    assert JoinWith([b, c]) == b + "/" + c by {
      assert [b, c][1..] == [c];
    }
    assert JoinWith([a, b, c]) == a + "/" + JoinWith([b, c]) by {
      assert [a, b, c][1..] == [b, c];
    }
  }

  /** An ordinary file name lands below the base. */
  lemma ChildAccepted(cwd: string, app: string, uploads: string, file: string)
    requires IsName(app) && IsName(uploads) && IsName(file)
    ensures var base := "/" + app + "/" + uploads;
      SafeJoin(cwd, base, [file]) == Success(base + "/" + file)
  {
    var base := "/" + app + "/" + uploads;
    ChildStacks(cwd, app, uploads, file);
    assert [base] + [file] == [base, file];
    SafeJoinMeaning(cwd, base, [file]);
    RenderThree(app, uploads, file);
  }
}
