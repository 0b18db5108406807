/** WSGIPathInfoDispatcher: mounts applications under path prefixes, tries
    the prefixes in reverse-sorted order and hands the request to the first
    one the path lies under, moving the prefix from PATH_INFO to SCRIPT_NAME. */
module Dispatch {
  import opened Text

  /** A `(path_prefix, app)` pair; an application is known by a number. */
  datatype Mount = Mount(prefix: string, app: nat)

  // ---------------------------------------------------------------------
  // Python's ordering of byte strings and of `(prefix, app)` tuples.

  /** `a <= b` on Python byte strings: the first differing character
      decides, and a proper prefix comes first. */
  predicate StrLe(a: string, b: string)
    decreases |a|
  {
    a == [] || (b != [] && (a[0] < b[0] || (a[0] == b[0] && StrLe(a[1..], b[1..]))))
  }

  lemma {:induction false} StrLeTotal(a: string, b: string)
    ensures StrLe(a, b) || StrLe(b, a)
    decreases |a|
  {
    if a != [] && b != [] && a[0] == b[0] {
      StrLeTotal(a[1..], b[1..]);
    }
  }

  lemma {:induction false} StrLeAntisymmetric(a: string, b: string)
    requires StrLe(a, b) && StrLe(b, a)
    ensures a == b
    decreases |a|
  {
    if a != [] {
      StrLeAntisymmetric(a[1..], b[1..]);
      assert a == [a[0]] + a[1..] && b == [b[0]] + b[1..];
    }
  }

  lemma {:induction false} StrLeTransitive(a: string, b: string, c: string)
    requires StrLe(a, b) && StrLe(b, c)
    ensures StrLe(a, c)
    decreases |a|
  {
    if a != [] && a[0] == b[0] && b[0] == c[0] {
      StrLeTransitive(a[1..], b[1..], c[1..]);
    }
  }

  /** A string sorts strictly after every proper prefix of it. */
  lemma {:induction false} StrLeExtension(a: string, b: string)
    requires b != []
    ensures StrLe(a, a + b) && !StrLe(a + b, a)
    decreases |a|
  {
    if a != [] {
      assert (a + b)[1..] == a[1..] + b;
      StrLeExtension(a[1..], b);
    }
  }

  /** Tuple order: by prefix, then by application. */
  predicate MountLe(x: Mount, y: Mount) {
    if x.prefix == y.prefix then x.app <= y.app else StrLe(x.prefix, y.prefix)
  }

  lemma MountLeTotal(x: Mount, y: Mount)
    ensures MountLe(x, y) || MountLe(y, x)
  {
    StrLeTotal(x.prefix, y.prefix);
  }

  lemma MountLeTransitive(x: Mount, y: Mount, z: Mount)
    requires MountLe(x, y) && MountLe(y, z)
    ensures MountLe(x, z)
  {
    if x.prefix != y.prefix && y.prefix != z.prefix {
      StrLeTransitive(x.prefix, y.prefix, z.prefix);
      if x.prefix == z.prefix {
        StrLeAntisymmetric(x.prefix, y.prefix);
      }
    } else if x.prefix != y.prefix || y.prefix != z.prefix {
      if x.prefix == z.prefix {
        StrLeAntisymmetric(x.prefix, y.prefix);
      }
    }
  }

  /** What `apps.sort(); apps.reverse()` leaves: largest tuple first. */
  ghost predicate SortedDescending(s: seq<Mount>) {
    forall i, j :: 0 <= i < j < |s| ==> MountLe(s[j], s[i])
  }

  /** The first `i + 1` elements are in descending order except for the one
      at `j`, which is larger than everything after it up to `i`. */
  ghost predicate SortedAround(s: seq<Mount>, i: nat, j: nat) {
    && j <= i < |s|
    && (forall k, l :: 0 <= k < l <= i && k != j && l != j ==> MountLe(s[l], s[k]))
    && (forall l :: j < l <= i ==> MountLe(s[l], s[j]))
  }

  /** Swapping the element at `j` with a smaller left neighbour keeps the shape. */
  lemma SwapLeft(s: seq<Mount>, i: nat, j: nat)
    requires SortedAround(s, i, j) && 0 < j && !MountLe(s[j], s[j - 1])
    ensures SortedAround(s[j - 1 := s[j]][j := s[j - 1]], i, j - 1)
  {
    MountLeTotal(s[j], s[j - 1]);
  }

  lemma SwapPermutes(s: seq<Mount>, j: nat)
    requires 0 < j < |s|
    ensures multiset(s[j - 1 := s[j]][j := s[j - 1]]) == multiset(s)
  {
  }

  /** A new element after a sorted prefix is where the insertion starts. */
  lemma StartAround(s: seq<Mount>, i: nat)
    requires i < |s| && SortedDescending(s[..i])
    ensures SortedAround(s, i, i)
  {
    forall k, l | 0 <= k < l <= i && k != i && l != i
      ensures MountLe(s[l], s[k])
    {
      assert s[l] == s[..i][l] && s[k] == s[..i][k];
    }
  }

  /** Once the element at `j` is no larger than its left neighbour, the
      whole prefix is sorted. */
  lemma SettledSorted(s: seq<Mount>, i: nat, j: nat)
    requires SortedAround(s, i, j) && (j == 0 || MountLe(s[j], s[j - 1]))
    ensures SortedDescending(s[..i + 1])
  {
    forall k, l | 0 <= k < l <= i
      ensures MountLe(s[l], s[k])
    {
      if l == j && k < j - 1 {
        MountLeTransitive(s[j], s[j - 1], s[k]);
      }
    }
  }

  /** Moves `a[i]` left past every smaller tuple, so that the first `i + 1`
      elements end up sorted in descending order. */
  method InsertLeft(a: array<Mount>, i: nat)
    requires i < a.Length && SortedDescending(a[..i])
    modifies a
    ensures SortedDescending(a[..i + 1])
    ensures multiset(a[..]) == multiset(old(a[..]))
  {
    var j: nat := i;
    StartAround(a[..], i);
    while 0 < j && !MountLe(a[j], a[j - 1])
      invariant j <= i
      invariant SortedAround(a[..], i, j)
      invariant multiset(a[..]) == multiset(old(a[..]))
    {
      ghost var s := a[..];
      SwapLeft(s, i, j);
      SwapPermutes(s, j);
      a[j], a[j - 1] := a[j - 1], a[j];
      assert a[..] == s[j - 1 := s[j]][j := s[j - 1]];
      j := j - 1;
    }
    SettledSorted(a[..], i, j);
  }

  /** `apps.sort(); apps.reverse()`, done in place as the source does on
      the list it was given: an insertion sort that moves larger tuples left. */
  method SortDescending(a: array<Mount>)
    modifies a
    ensures SortedDescending(a[..])
    ensures multiset(a[..]) == multiset(old(a[..]))
  {
    var i := 0;
    while i < a.Length
      invariant 0 <= i <= a.Length
      invariant SortedDescending(a[..i])
      invariant multiset(a[..]) == multiset(old(a[..]))
    {
      InsertLeft(a, i);
      i := i + 1;
    }
    assert a[..a.Length] == a[..];
  }

  // ---------------------------------------------------------------------
  // Stored prefixes.

  /** `(p.rstrip("/"), a)` */
  function Stripped(m: Mount): (r: Mount)
    ensures r.app == m.app
    ensures r.prefix == [] || r.prefix[|r.prefix| - 1] != '/'
    ensures StartsWith(m.prefix, r.prefix)
  {
    Mount(RStripChar(m.prefix, '/'), m.app)
  }

  function StripAll(ms: seq<Mount>): (r: seq<Mount>)
    ensures |r| == |ms|
    ensures forall i :: 0 <= i < |ms| ==> r[i] == Stripped(ms[i])
  {
    seq(|ms|, i requires 0 <= i < |ms| => Stripped(ms[i]))
  }

  /** No stored prefix ends in a slash ("" stands for "/"). */
  ghost predicate NoTrailingSlash(apps: seq<Mount>) {
    forall i :: 0 <= i < |apps| ==> apps[i].prefix == [] || apps[i].prefix[|apps[i].prefix| - 1] != '/'
  }

  /** Any reordering of stripped mounts is still free of trailing slashes. */
  lemma PermutationKeepsStripped(ms: seq<Mount>, s: seq<Mount>)
    requires multiset(s) == multiset(StripAll(ms))
    ensures NoTrailingSlash(s)
  {
    forall i | 0 <= i < |s|
      ensures s[i].prefix == [] || s[i].prefix[|s[i].prefix| - 1] != '/'
    {
      assert s[i] in multiset(StripAll(ms));
      var k :| 0 <= k < |ms| && StripAll(ms)[k] == s[i];
    }
  }

  // ---------------------------------------------------------------------
  // Routing a request.

  /** `path.startswith(p + "/") or path == p` */
  predicate Matches(path: string, p: string) {
    path == p || StartsWith(path, p + "/")
  }

  datatype Routed =
    | Routed(app: nat, env: map<string, string>)
      /** No mount matched: the dispatcher answers itself, calling
          `start_response(status, headers)` and returning `body`. */
    | NotFound(status: string, headers: seq<(string, string)>, body: seq<string>)
      /** `environ[key]` raised KeyError */
    | MissingKey(key: string)

  const NotFoundStatus: string := "404 Not Found"
  const NotFoundHeaders: seq<(string, string)> := [("Content-Type", "text/plain"), ("Content-Length", "0")]
  const NotFoundBody: seq<string> := [""]
  const NoMount: Routed := NotFound(NotFoundStatus, NotFoundHeaders, NotFoundBody)

  /** The environ handed to the application: a copy with the prefix moved
      from PATH_INFO to SCRIPT_NAME. */
  function Rewrite(env: map<string, string>, p: string, path: string): map<string, string>
    requires "SCRIPT_NAME" in env && |p| <= |path|
  {
    env["SCRIPT_NAME" := env["SCRIPT_NAME"] + p]["PATH_INFO" := path[|p|..]]
  }

  /** The `for p, app in self.apps` loop from position `i` on. */
  function RouteFrom(apps: seq<Mount>, i: nat, path: string, env: map<string, string>): Routed
    requires i <= |apps|
    decreases |apps| - i
  {
    if i == |apps| then NoMount
    else if Matches(path, apps[i].prefix) then
      if "SCRIPT_NAME" in env then Routed(apps[i].app, Rewrite(env, apps[i].prefix, path))
      else MissingKey("SCRIPT_NAME")
    else RouteFrom(apps, i + 1, path, env)
  }

  /** `environ["PATH_INFO"] or "/"` */
  function PathOf(env: map<string, string>): string
    requires "PATH_INFO" in env
  {
    if env["PATH_INFO"] == "" then "/" else env["PATH_INFO"]
  }

  function Route(apps: seq<Mount>, env: map<string, string>): Routed {
    if "PATH_INFO" !in env then MissingKey("PATH_INFO")
    else RouteFrom(apps, 0, PathOf(env), env)
  }

  /** The first mount, from position `i` on, whose prefix the path lies under. */
  ghost predicate FirstMatchFrom(apps: seq<Mount>, i: nat, k: nat, path: string) {
    i <= k < |apps| && Matches(path, apps[k].prefix)
    && forall j :: i <= j < k ==> !Matches(path, apps[j].prefix)
  }

  /** Routing picks the first matching mount and rewrites the environ for it;
      it answers 404 exactly when no prefix matches. */
  lemma {:induction false} RouteFromIsFirstMatch(apps: seq<Mount>, i: nat, path: string, env: map<string, string>)
    requires i <= |apps| && "SCRIPT_NAME" in env
    ensures var r := RouteFrom(apps, i, path, env);
            && (r.NotFound? <==> forall j :: i <= j < |apps| ==> !Matches(path, apps[j].prefix))
            && (r.Routed? <==> !r.NotFound?)
            && (r.NotFound? ==> r == NoMount)
            && (r.Routed? ==> exists k: nat :: FirstMatchFrom(apps, i, k, path)
                                && r.app == apps[k].app && r.env == Rewrite(env, apps[k].prefix, path))
    decreases |apps| - i
  {
    if i < |apps| {
      if Matches(path, apps[i].prefix) {
        assert FirstMatchFrom(apps, i, i, path);
      } else {
        RouteFromIsFirstMatch(apps, i + 1, path, env);
        var r := RouteFrom(apps, i + 1, path, env);
        if r.Routed? {
          var k: nat :| FirstMatchFrom(apps, i + 1, k, path) && r.app == apps[k].app
                   && r.env == Rewrite(env, apps[k].prefix, path);
          assert FirstMatchFrom(apps, i, k, path);
        }
      }
    }
  }

  /** The rewrite only moves text from PATH_INFO to SCRIPT_NAME: the two
      together still spell the original path, the new PATH_INFO is empty or
      starts with "/", and no other key of the environ changes. */
  lemma RewriteConserves(env: map<string, string>, p: string, path: string)
    requires "SCRIPT_NAME" in env && Matches(path, p)
    ensures var e := Rewrite(env, p, path);
            && e["SCRIPT_NAME"] + e["PATH_INFO"] == env["SCRIPT_NAME"] + path
            && e["SCRIPT_NAME"] == env["SCRIPT_NAME"] + p
            && (e["PATH_INFO"] == [] || e["PATH_INFO"][0] == '/')
            && e.Keys == env.Keys + {"PATH_INFO"}
            && forall k :: k in env && k != "SCRIPT_NAME" && k != "PATH_INFO" ==> e[k] == env[k]
  {
    var e := Rewrite(env, p, path);
    assert path == p + path[|p|..];
    if path != p {
      assert path[..|p| + 1] == p + "/";
      assert path[|p|] == '/';
    }
  }

  /** Two prefixes a path lies under are nested: the shorter one followed by
      a slash starts the longer one. */
  lemma MatchesNested(path: string, p: string, q: string)
    requires Matches(path, p) && Matches(path, q) && |p| < |q|
    ensures StartsWith(q, p + "/")
  {
    assert path[..|p| + 1] == p + "/";
    assert q == path[..|q|];
    assert q[..|p| + 1] == path[..|p| + 1];
  }

  /** In a list sorted in descending order whose prefixes are nested
      paths, an extension of a prefix always comes before it. */
  lemma SortedPutsExtensionsFirst(apps: seq<Mount>, i: nat, j: nat)
    requires SortedDescending(apps)
    requires i < |apps| && j < |apps| && StartsWith(apps[j].prefix, apps[i].prefix + "/")
    ensures j < i
  {
    var p, q := apps[i].prefix, apps[j].prefix;
    assert q == p + q[|p|..];
    assert q[|p|..] != [];
    StrLeExtension(p, q[|p|..]);
    assert p != q;
    assert !MountLe(apps[j], apps[i]);
  }

  /** With the mounts sorted in descending order, the mount routing picks has
      the longest prefix among all that match the path. */
  lemma RouteIsLongestMatch(apps: seq<Mount>, path: string, k: nat, j: nat)
    requires SortedDescending(apps)
    requires FirstMatchFrom(apps, 0, k, path)
    requires j < |apps| && Matches(path, apps[j].prefix)
    ensures |apps[j].prefix| <= |apps[k].prefix|
  {
    if |apps[k].prefix| < |apps[j].prefix| {
      MatchesNested(path, apps[k].prefix, apps[j].prefix);
      SortedPutsExtensionsFirst(apps, k, j);
    }
  }

  /** The dispatcher as a whole, over mounts sorted in descending order: a
      request is answered 404 exactly when no prefix matches its path (an
      empty PATH_INFO standing for "/"); otherwise it goes to a mount whose
      prefix is the longest that matches, and the new SCRIPT_NAME and
      PATH_INFO together still spell the old SCRIPT_NAME and the path. */
  lemma RouteRule(apps: seq<Mount>, env: map<string, string>)
    requires SortedDescending(apps) && "PATH_INFO" in env && "SCRIPT_NAME" in env
    ensures var path := if env["PATH_INFO"] == "" then "/" else env["PATH_INFO"];
            var r := Route(apps, env);
            && (r.NotFound? <==> forall j :: 0 <= j < |apps| ==> !Matches(path, apps[j].prefix))
            && (r.Routed? <==> !r.NotFound?)
            && (r.NotFound? ==> r == NotFound("404 Not Found", [("Content-Type", "text/plain"), ("Content-Length", "0")], [""]))
            && (r.Routed? ==>
                  exists k :: 0 <= k < |apps| && r.app == apps[k].app && Matches(path, apps[k].prefix)
                    && (forall j :: 0 <= j < |apps| && Matches(path, apps[j].prefix) ==> |apps[j].prefix| <= |apps[k].prefix|)
                    && "SCRIPT_NAME" in r.env && "PATH_INFO" in r.env
                    && r.env["SCRIPT_NAME"] == env["SCRIPT_NAME"] + apps[k].prefix
                    && r.env["SCRIPT_NAME"] + r.env["PATH_INFO"] == env["SCRIPT_NAME"] + path)
  {
    var path := PathOf(env);
    RouteFromIsFirstMatch(apps, 0, path, env);
    var r := Route(apps, env);
    if r.Routed? {
      var k: nat :| FirstMatchFrom(apps, 0, k, path) && r.app == apps[k].app
               && r.env == Rewrite(env, apps[k].prefix, path);
      RewriteConserves(env, apps[k].prefix, path);
      forall j | 0 <= j < |apps| && Matches(path, apps[j].prefix)
        ensures |apps[j].prefix| <= |apps[k].prefix|
      {
        RouteIsLongestMatch(apps, path, k, j);
      }
    }
  }

  // ---------------------------------------------------------------------
  // The dispatcher object.

  /** wsgi.py:121-125 as written: the caller's list of pairs is sorted in
      place on the prefixes as given, and only then are the slashes stripped. */
  method StoreAsWritten(ms: array<Mount>) returns (stored: seq<Mount>)
    modifies ms
    ensures SortedDescending(ms[..]) && multiset(ms[..]) == multiset(old(ms[..]))
    ensures stored == StripAll(ms[..])
  {
    SortDescending(ms);
    stored := StripAll(ms[..]);
  }

  /** "/a//" sorts above "/a/-": the slash is above the dash. */
  lemma SlashAboveDash()
    ensures !MountLe(Mount("/a//", 1), Mount("/a/-", 2))
  {
    assert "/a//" == "/a/" + "/" && "/a/-" == "/a/" + "-";
  }

  /** The one descending order of the two mounts. */
  lemma SortedPair(s: seq<Mount>)
    requires SortedDescending(s) && multiset(s) == multiset([Mount("/a//", 1), Mount("/a/-", 2)])
    ensures s == [Mount("/a//", 1), Mount("/a/-", 2)]
  {
    var x, y := Mount("/a//", 1), Mount("/a/-", 2);
    assert |s| == 2 by { assert |multiset(s)| == 2; }
    assert x in multiset(s) && y in multiset(s);
    assert s == [x, y] || s == [y, x];
    SlashAboveDash();
    assert MountLe(s[1], s[0]);
  }

  lemma StrippedPair()
    ensures StripAll([Mount("/a//", 1), Mount("/a/-", 2)]) == [Mount("/a", 1), Mount("/a/-", 2)]
  {
    assert RStripChar("/a/", '/') == "/a";
    assert RStripChar("/a//", '/') == "/a";
    assert RStripChar("/a/-", '/') == "/a/-";
  }

  /** Sorting before stripping can put a short prefix ahead of a longer one
      it is a prefix of: "/a//" sorts above "/a/-", so a request for /a/-/x
      goes to the application mounted at "/a//", although the one mounted at
      "/a/-" has the longer matching prefix. */
  lemma AsWrittenShadowsLongerPrefix(s: seq<Mount>)
    requires SortedDescending(s) && multiset(s) == multiset([Mount("/a//", 1), Mount("/a/-", 2)])
    ensures var stored := StripAll(s);
            && stored == [Mount("/a", 1), Mount("/a/-", 2)]
            && Route(stored, map["SCRIPT_NAME" := "", "PATH_INFO" := "/a/-/x"]).Routed?
            && Route(stored, map["SCRIPT_NAME" := "", "PATH_INFO" := "/a/-/x"]).app == 1
            && Matches("/a/-/x", stored[1].prefix) && |stored[0].prefix| < |stored[1].prefix|
  {
    SortedPair(s);
    StrippedPair();
    assert StartsWith("/a/-/x", "/a" + "/");
    assert StartsWith("/a/-/x", "/a/-" + "/");
  }

  class PathInfoDispatcher {
    /** `self.apps`: the mounts, largest first, prefixes without trailing slash. */
    const apps: seq<Mount>

    /** Corrected construction: the prefixes are stripped first and the
        stripped pairs sorted, so the order the lookup relies on holds. */
    constructor(ms: seq<Mount>)
      ensures SortedDescending(apps) && NoTrailingSlash(apps)
      ensures multiset(apps) == multiset(StripAll(ms))
    {
      var a := new Mount[|ms|](i requires 0 <= i < |ms| => Stripped(ms[i]));
      assert a[..] == StripAll(ms);
      SortDescending(a);
      PermutationKeepsStripped(ms, a[..]);
      apps := a[..];
    }

    /** `__call__`: the loop over the mounts, returning on the first match. */
    method Call(env: map<string, string>) returns (r: Routed)
      ensures r == Route(apps, env)
      ensures r.NotFound? ==>
                r.status == "404 Not Found" && r.body == [""]
                && r.headers == [("Content-Type", "text/plain"), ("Content-Length", "0")]
    {
      if "PATH_INFO" !in env {
        return MissingKey("PATH_INFO");
      }
      var path := PathOf(env);
      for i := 0 to |apps|
        invariant RouteFrom(apps, i, path, env) == RouteFrom(apps, 0, path, env)
      {
        var p := apps[i].prefix;
        if StartsWith(path, p + "/") || path == p {
          if "SCRIPT_NAME" !in env {
            return MissingKey("SCRIPT_NAME");
          }
          var e := env["SCRIPT_NAME" := env["SCRIPT_NAME"] + p];
          e := e["PATH_INFO" := path[|p|..]];
          return Routed(apps[i].app, e);
        }
      }
      return NoMount;
    }
  }
}
