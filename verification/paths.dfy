/** Validation of CDN asset names and paths, and their resolution under a
    configured scope root (the `UpdateCdnAsset` query). */
module AssetPath {
  import opened Common

  /** Characters an asset name may use: ASCII letters and digits and the
      punctuation `-_.:%$[](){}@!` and space. */
  predicate NameChar(c: char)
  {
    IsAsciiAlnum(c) || c in "-_.:%$[](){}@! "
  }

  /** Characters an asset path may use: ASCII letters and digits and
      `-_.:%$/` and space; unlike names, `/` is allowed and brackets,
      braces, `@` and `!` are not. */
  predicate PathChar(c: char)
  {
    IsAsciiAlnum(c) || c in "-_.:%$/ "
  }

  /** What an acceptable name is: only allowed characters, no separator of
      either kind and no leading dot. */
  predicate NameAcceptable(name: string)
  {
    && (forall i :: 0 <= i < |name| ==> NameChar(name[i]))
    && '/' !in name
    && '\\' !in name
    && !(|name| > 0 && name[0] == '.')
  }

  /** What an acceptable path is: only allowed characters, no `..`, no `//`,
      no backslash and no leading `/`. */
  predicate PathAcceptable(path: string)
  {
    && (forall i :: 0 <= i < |path| ==> PathChar(path[i]))
    && !AdjacentPair(path, '.', '.')
    && !AdjacentPair(path, '/', '/')
    && '\\' !in path
    && !(|path| > 0 && path[0] == '/')
  }

  /** `validate_name`: the four checks in the order the handler makes them. */
  function ValidateName(name: string): (ok: bool)
    ensures ok <==> NameAcceptable(name)
  {
    SingleOccurrence(name, '/');
    SingleOccurrence(name, '\\');
    !(AnyOutside(name, NameChar)
      || Occurs(name, "/")
      || Occurs(name, "\\")
      || HasPrefix(name, "."))
  }

  /** `validate_path`: the five checks in the order the handler makes them. */
  function ValidatePath(path: string): (ok: bool)
    ensures ok <==> PathAcceptable(path)
  {
    PairOccurrence(path, '.', '.');
    PairOccurrence(path, '/', '/');
    SingleOccurrence(path, '\\');
    !(AnyOutside(path, PathChar)
      || Occurs(path, "..")
      || Occurs(path, "//")
      || Occurs(path, "\\")
      || HasPrefix(path, "/"))
  }

  /** A one-character pattern occurs exactly when the character does. */
  lemma SingleOccurrence(s: string, c: char)
    ensures ContainsSub(s, [c]) <==> c in s
  {
    if c in s {
      var i :| 0 <= i < |s| && s[i] == c;
      assert s[i..i + 1] == [c];
      assert OccursAt(s, [c], i);
    }
    if ContainsSub(s, [c]) {
      var i :| 0 <= i <= |s| - 1 && OccursAt(s, [c], i);
      var w := s[i..i + 1];
      assert w == [c] && s[i] == w[0];
    }
  }

  /** The directory an asset lives in: the scope root, followed by the path
      when one is given. */
  function AssetDir(root: string, path: string): (dir: string)
    ensures HasPrefix(dir, root)
    ensures Components(dir) == Components(root) + (if path == "" then [] else Components(path))
  {
    if path == "" then root
    else
      ComponentsOfJoin(root, path);
      assert (root + "/" + path)[..|root|] == root;
      root + "/" + path
  }

  /** The resolved asset: its directory, followed by the name when one is
      given. */
  function AssetTarget(root: string, path: string, name: string): (target: string)
    ensures HasPrefix(target, AssetDir(root, path))
    ensures target == AssetDir(root, path) <==> name == ""
    ensures Components(target) == Components(AssetDir(root, path)) + (if name == "" then [] else Components(name))
  {
    var dir := AssetDir(root, path);
    if name == "" then dir
    else
      ComponentsOfJoin(dir, name);
      assert (dir + "/" + name)[..|dir|] == dir;
      dir + "/" + name
  }

  /** The `/`-separated components of a path string; an empty string and a
      trailing or doubled separator yield empty components, as in Rust's
      `str::split('/')`. */
  function Components(s: string): (cs: seq<string>)
    ensures |cs| >= 1
    ensures cs[0] <= s
    ensures forall k :: 0 <= k < |cs| ==> '/' !in cs[k]
    decreases |s|
  {
    if |s| == 0 then [""]
    else if s[0] == '/' then [""] + Components(s[1..])
    else
      var rest := Components(s[1..]);
      [[s[0]] + rest[0]] + rest[1..]
  }

  /** Rejoins components with `/`; the inverse of `Components`. */
  function Join(cs: seq<string>): string
    requires |cs| >= 1
  {
    if |cs| == 1 then cs[0] else cs[0] + "/" + Join(cs[1..])
  }

  /** Prefixing a character to the first component prefixes it to the
      joined path. */
  lemma {:induction false} JoinPrefixFirst(c: char, cs: seq<string>)
    requires |cs| >= 1
    ensures Join([[c] + cs[0]] + cs[1..]) == [c] + Join(cs)
  {
    var ds := [[c] + cs[0]] + cs[1..];
    if |cs| > 1 {
      var tail := Join(cs[1..]);
      assert ds[1..] == cs[1..];
      assert Join(ds) == ds[0] + "/" + tail;
      assert Join(cs) == cs[0] + "/" + tail;
      assert ds[0] + "/" + tail == [c] + (cs[0] + "/" + tail);
    }
  }

  /** Splitting and rejoining gives back the original path. */
  lemma {:induction false} JoinComponents(s: string)
    ensures Join(Components(s)) == s
    decreases |s|
  {
    if |s| == 0 {
    } else if s[0] == '/' {
      JoinComponents(s[1..]);
      var cs := [""] + Components(s[1..]);
      assert cs[1..] == Components(s[1..]);
      assert s == "" + "/" + s[1..];
    } else {
      JoinComponents(s[1..]);
      JoinPrefixFirst(s[0], Components(s[1..]));
      assert s == [s[0]] + s[1..];
    }
  }

  /** Joining two paths with `/` concatenates their component lists: the
      separator the resolver inserts never glues two components together. */
  lemma {:induction false} ComponentsOfJoin(a: string, b: string)
    ensures Components(a + "/" + b) == Components(a) + Components(b)
    decreases |a|
  {
    if |a| == 0 {
      assert a + "/" + b == "/" + b;
      assert ("/" + b)[1..] == b;
    } else {
      assert (a + "/" + b)[1..] == a[1..] + "/" + b;
      ComponentsOfJoin(a[1..], b);
    }
  }

  /** A `..` component can only come from a `..` in the text. */
  lemma {:induction false} ParentComponentNeedsDots(s: string)
    requires ".." in Components(s)
    ensures AdjacentPair(s, '.', '.')
    decreases |s|
  {
    if s[0] == '/' {
      ParentComponentNeedsDots(s[1..]);
      var i :| 0 <= i < |s[1..]| - 1 && s[1..][i] == '.' && s[1..][i + 1] == '.';
      assert s[i + 1] == '.' && s[i + 2] == '.';
    } else {
      var rest := Components(s[1..]);
      if [s[0]] + rest[0] == ".." {
        assert s[0] == '.' && rest[0] == ".";
        assert rest[0] <= s[1..];
        assert s[1] == '.';
      } else {
        assert ".." in rest;
        ParentComponentNeedsDots(s[1..]);
        var i :| 0 <= i < |s[1..]| - 1 && s[1..][i] == '.' && s[1..][i + 1] == '.';
        assert s[i + 1] == '.' && s[i + 2] == '.';
      }
    }
  }

  /** A string without `/` is a single component. */
  lemma {:induction false} ComponentsOfPlain(s: string)
    requires '/' !in s
    ensures Components(s) == [s]
    decreases |s|
  {
    if |s| > 0 {
      assert '/' !in s[1..];
      ComponentsOfPlain(s[1..]);
      assert s == [s[0]] + s[1..];
    }
  }

  /** Resolution of an accepted path and name: the root's components, then
      the path's (when non-empty), then the name (when non-empty). */
  lemma ResolvedComponents(root: string, path: string, name: string)
    requires ValidatePath(path) && ValidateName(name)
    ensures Components(AssetTarget(root, path, name))
         == Components(root)
          + (if path == "" then [] else Components(path))
          + (if name == "" then [] else [name])
  {
    var dir := AssetDir(root, path);
    if path != "" {
      ComponentsOfJoin(root, path);
    }
    assert Components(dir) == Components(root) + (if path == "" then [] else Components(path));
    if name != "" {
      ComponentsOfJoin(dir, name);
      ComponentsOfPlain(name);
    }
  }

  /** The path-escape guard: once `path` and `name` pass validation, the
      resolved target has a `..` component only if the configured root
      already has one, and it always starts with the root. */
  lemma NoEscapeFromRoot(root: string, path: string, name: string)
    requires ValidatePath(path) && ValidateName(name)
    ensures HasPrefix(AssetTarget(root, path, name), root)
    ensures ".." in Components(AssetTarget(root, path, name)) ==> ".." in Components(root)
    ensures AssetTarget(root, path, name) == root <==> path == "" && name == ""
  {
    ResolvedComponents(root, path, name);
    if path != "" && ".." in Components(path) {
      ParentComponentNeedsDots(path);
    }
    assert name != "..";
    var dir := AssetDir(root, path);
    assert dir[..|root|] == root;
    assert HasPrefix(dir, root);
    if name != "" {
      assert (dir + "/" + name)[..|root|] == dir[..|root|];
    }
  }

  /** `a..b` is an acceptable name with no `/` in it. */
  lemma InnerDotsName()
    ensures ValidateName("a..b") && '/' !in "a..b"
  {
    var n := "a..b";
    assert n[0] == 'a' && n[1] == '.' && n[2] == '.' && n[3] == 'b';
    assert forall i :: 0 <= i < |n| ==> NameChar(n[i]);
  }

  /** The name validator lets `..` through inside a name that does not start
      with a dot, so the resolved target can contain the text `..` without
      containing a `..` component: the guard is component-wise, not textual. */
  lemma DotsInsideNameAreNotAnEscape(root: string)
    requires !AdjacentPair(root, '.', '.')
    ensures ValidateName("a..b") && ValidatePath("")
    ensures ContainsSub(AssetTarget(root, "", "a..b"), "..")
    ensures ".." !in Components(AssetTarget(root, "", "a..b"))
  {
    var n := "a..b";
    InnerDotsName();
    assert AssetTarget(root, "", n) == root + "/" + n;
    assert n[1] == '.' && n[2] == '.';
    DotsAfterSeparator(root, n, 1);
    ComponentsOfPlain(n);
    assert |n| != |".."|;
    if ".." in Components(root) {
      ParentComponentNeedsDots(root);
    }
  }

  /** Two dots inside the last segment are two dots in the joined text. */
  lemma DotsAfterSeparator(a: string, b: string, i: nat)
    requires i + 1 < |b| && b[i] == '.' && b[i + 1] == '.'
    ensures ContainsSub(a + "/" + b, "..")
  {
    var t := a + "/" + b;
    var j := |a| + 1 + i;
    assert t[j] == '.' && t[j + 1] == '.';
    assert t[j..j + 2] == "..";
    assert OccursAt(t, "..", j);
  }

  /** Both validators accept the empty string, so an empty path and name
      resolve to the scope root itself. */
  lemma EmptyInputsResolveToRoot(root: string)
    ensures ValidateName("") && ValidatePath("")
    ensures AssetTarget(root, "", "") == root
  {
  }
}
