/**
 * The parts of Go's `path/filepath` the services use, for Unix paths
 * (separator '/'): `Ext`, `Clean` and two-element `Join`.
 */
module Paths {

  const Separator: char := '/'

  /**
   * `filepath.Ext`: the suffix of `path` from the last '.' in its final
   * element, or "" when that element has no '.'.
   */
  function Ext(path: string): (ext: string)
    ensures |ext| <= |path|
    ensures ext == "" || (ext[0] == '.' && ext == path[|path| - |ext|..])
  {
    ExtBeforeCharacterised(path, |path|);
    ExtBefore(path, |path|)
  }

  /** The scan of `Ext` over `path[..i]`, from its end towards the front. */
  function ExtBefore(path: string, i: nat): (ext: string)
    requires i <= |path|
    decreases i
  {
    if i == 0 || path[i - 1] == Separator then ""
    else if path[i - 1] == '.' then path[i - 1..]
    else ExtBefore(path, i - 1)
  }

  /** `path[..i]` has a '.' after its last separator. */
  ghost predicate DotInLastElement(path: string, i: nat)
    requires i <= |path|
  {
    exists j :: 0 <= j < i && path[j] == '.' && forall k :: j < k < i ==> path[k] != Separator
  }

  /**
   * The scan of `ExtBefore` finds the suffix that starts at the last '.'
   * after the last separator before `i`, and finds nothing when there is none.
   */
  lemma {:induction false} ExtBeforeCharacterised(path: string, i: nat)
    requires i <= |path|
    ensures var e := ExtBefore(path, i);
      e != "" ==>
        && |path| - i < |e| <= |path| && e == path[|path| - |e|..] && e[0] == '.'
        && forall k :: |path| - |e| < k < i ==> path[k] != '.' && path[k] != Separator
    ensures ExtBefore(path, i) == "" <==> !DotInLastElement(path, i)
    decreases i
  {
    if i == 0 {
    } else if path[i - 1] == Separator {
    } else if path[i - 1] == '.' {
      assert DotInLastElement(path, i);
    } else {
      ExtBeforeCharacterised(path, i - 1);
      DotInLastElementStep(path, i);
    }
  }

  /** A character that is neither '.' nor a separator does not change whether the last element has a dot. */
  lemma DotInLastElementStep(path: string, i: nat)
    requires 0 < i <= |path| && path[i - 1] != '.' && path[i - 1] != Separator
    ensures DotInLastElement(path, i) <==> DotInLastElement(path, i - 1)
  {
    if DotInLastElement(path, i - 1) {
      var j :| 0 <= j < i - 1 && path[j] == '.' && forall k :: j < k < i - 1 ==> path[k] != Separator;
      assert forall k :: j < k < i ==> path[k] != Separator;
    }
    if DotInLastElement(path, i) {
      var j :| 0 <= j < i && path[j] == '.' && forall k :: j < k < i ==> path[k] != Separator;
      assert j != i - 1;
      assert forall k :: j < k < i - 1 ==> path[k] != Separator;
    }
  }

  /**
   * `Ext` against its documented meaning: the result is a suffix of the
   * path that starts with '.' and contains no further '.' and no separator;
   * it is empty exactly when the final element of the path has no '.'.
   */
  lemma ExtCharacterised(path: string)
    ensures |Ext(path)| <= |path|
    ensures var e := Ext(path);
      e != "" ==>
        && e == path[|path| - |e|..] && e[0] == '.'
        && forall k :: 1 <= k < |e| ==> e[k] != '.' && e[k] != Separator
    ensures Ext(path) == "" <==> !DotInLastElement(path, |path|)
  {
    ExtBeforeCharacterised(path, |path|);
    var e := Ext(path);
    if e != "" {
      forall k | 1 <= k < |e| ensures e[k] != '.' && e[k] != Separator {
        assert e[k] == path[|path| - |e| + k];
      }
    }
  }

  /** `strings.Split(path, "/")`: the pieces between separators, empty ones included. */
  function Split(path: string): (parts: seq<string>)
    ensures |parts| >= 1
    decreases |path|
  {
    if path == [] then [[]]
    else
      var rest := Split(path[1..]);
      if path[0] == Separator then [[]] + rest else [[path[0]] + rest[0]] + rest[1..]
  }

  /**
   * The lexical rules of `filepath.Clean` applied to path elements from left
   * to right: empty and "." elements vanish, ".." removes the element before
   * it, and a ".." that has nothing to remove is dropped at the root of a
   * rooted path and kept otherwise.
   */
  function Resolve(parts: seq<string>, rooted: bool, kept: seq<string>): (r: seq<string>)
    decreases |parts|
  {
    if parts == [] then kept
    else
      var part := parts[0];
      var next :=
        if part == "" || part == "." then kept
        else if part == ".." then
          if |kept| > 0 && kept[|kept| - 1] != ".." then kept[..|kept| - 1]
          else if rooted then kept
          else kept + [part]
        else kept + [part];
      Resolve(parts[1..], rooted, next)
  }

  /** `strings.Join(parts, "/")`. */
  function JoinWith(parts: seq<string>): (path: string)
    decreases |parts|
  {
    if parts == [] then "" else if |parts| == 1 then parts[0] else parts[0] + "/" + JoinWith(parts[1..])
  }

  /** `filepath.Clean`: the shortest lexically equivalent path, "." for an empty result. */
  function Clean(path: string): (r: string)
    ensures r != ""
  {
    if path == "" then "."
    else
      var rooted := path[0] == Separator;
      var body := JoinWith(Resolve(Split(path), rooted, []));
      var out := if rooted then "/" + body else body;
      if out == "" then "." else out
  }

  /** `filepath.Join(dir, name)`: the two joined by a separator and cleaned; "" if both are empty. */
  function Join(dir: string, name: string): (r: string)
    ensures r == "" <==> dir == "" && name == ""
  {
    if dir != "" then Clean(dir + "/" + name)
    else if name != "" then Clean(name)
    else ""
  }

  /** A single path element that Clean keeps as it is. */
  ghost predicate PlainName(s: string)
  {
    s != "" && s != "." && s != ".." && Separator !in s
  }

  /** A name without a separator is glued to the front of the first piece of what follows it. */
  lemma {:induction false} SplitNoSeparator(a: string, rest: string)
    requires Separator !in a
    ensures Split(a + rest) == [a + Split(rest)[0]] + Split(rest)[1..]
    decreases |a|
  {
    if a != [] {
      assert (a + rest)[0] == a[0] && a[0] != Separator;
      assert (a + rest)[1..] == a[1..] + rest;
      SplitNoSeparator(a[1..], rest);
      var inner := Split(a[1..] + rest);
      assert inner[0] == a[1..] + Split(rest)[0];
      assert inner[1..] == Split(rest)[1..];
      assert Split(a + rest) == [[a[0]] + inner[0]] + inner[1..];
      assert [a[0]] + (a[1..] + Split(rest)[0]) == a + Split(rest)[0];
    } else {
      assert a + rest == rest;
      assert a + Split(rest)[0] == Split(rest)[0];
      assert Split(rest) == [Split(rest)[0]] + Split(rest)[1..];
    }
  }

  /** Joining two plain names puts exactly one separator between them. */
  lemma JoinPlainNames(dir: string, name: string)
    requires PlainName(dir) && PlainName(name)
    ensures Join(dir, name) == dir + "/" + name
  {
    SplitNoSeparator(name, "");
    assert name + "" == name;
    assert Split("") == [""];
    assert Split(name) == [name];
    assert Split("/" + name) == [""] + [name] by {
      assert ("/" + name)[1..] == name;
    }
    SplitNoSeparator(dir, "/" + name);
    assert dir + "/" + name == dir + ("/" + name);
    assert Split(dir + "/" + name) == [dir + ""] + ([""] + [name])[1..];
    assert dir + "" == dir;
    assert Split(dir + "/" + name) == [dir, name];
    assert Resolve([dir, name], false, []) == [dir, name] by {
      assert [dir, name][1..] == [name];
      var none: seq<string> := [];
      assert none + [dir] == [dir];
      assert Resolve([], false, [dir, name]) == [dir, name];
      assert [name][1..] == [];
      assert [dir] + [name] == [dir, name];
      assert Resolve([name], false, [dir]) == [dir, name];
    }
    assert JoinWith([dir, name]) == dir + "/" + name by {
      assert [dir, name][1..] == [name];
    }
  }

  /**
   * The elements `Clean` keeps: none is empty or ".", none holds a
   * separator, and ".." appears only in a leading run of a relative path.
   */
  ghost predicate Canonical(parts: seq<string>, rooted: bool)
  {
    forall k :: 0 <= k < |parts| ==>
      && parts[k] != "" && parts[k] != "." && Separator !in parts[k]
      && (parts[k] == ".." ==> !rooted && forall j :: 0 <= j < k ==> parts[j] == "..")
  }

  /** No piece of a split path holds a separator. */
  lemma {:induction false} SplitHasNoSeparator(path: string)
    ensures forall k :: 0 <= k < |Split(path)| ==> Separator !in Split(path)[k]
    decreases |path|
  {
    if path != [] {
      SplitHasNoSeparator(path[1..]);
    }
  }

  /** Resolving separator-free elements onto canonical ones stays canonical. */
  lemma {:induction false} ResolveCanonical(parts: seq<string>, rooted: bool, kept: seq<string>)
    requires Canonical(kept, rooted)
    requires forall k :: 0 <= k < |parts| ==> Separator !in parts[k]
    ensures Canonical(Resolve(parts, rooted, kept), rooted)
    decreases |parts|
  {
    if parts != [] {
      var part := parts[0];
      if part == ".." && !(|kept| > 0 && kept[|kept| - 1] != "..") && !rooted {
        assert forall j :: 0 <= j < |kept| ==> kept[j] == "..";
      }
      var next :=
        if part == "" || part == "." then kept
        else if part == ".." then
          if |kept| > 0 && kept[|kept| - 1] != ".." then kept[..|kept| - 1]
          else if rooted then kept
          else kept + [part]
        else kept + [part];
      assert Canonical(next, rooted);
      ResolveCanonical(parts[1..], rooted, next);
    }
  }

  /** `Clean` yields canonical elements, joined by single separators. */
  lemma CleanIsCanonical(path: string)
    requires path != ""
    ensures var rooted := path[0] == Separator;
      var parts := Resolve(Split(path), rooted, []);
      && Canonical(parts, rooted)
      && Clean(path) == if rooted then "/" + JoinWith(parts) else if parts == [] then "." else JoinWith(parts)
  {
    var rooted := path[0] == Separator;
    SplitHasNoSeparator(path);
    ResolveCanonical(Split(path), rooted, []);
    var parts := Resolve(Split(path), rooted, []);
    if parts != [] {
      JoinWithStart(parts);
    }
  }

  /** Joined non-empty elements start with the first element's first character. */
  lemma JoinWithStart(parts: seq<string>)
    requires parts != [] && parts[0] != ""
    ensures JoinWith(parts) != "" && JoinWith(parts)[0] == parts[0][0]
  {
  }

  /** Splitting joined separator-free, non-empty elements gives them back. */
  lemma {:induction false} SplitJoinWith(parts: seq<string>)
    requires parts != []
    requires forall k :: 0 <= k < |parts| ==> Separator !in parts[k]
    ensures Split(JoinWith(parts)) == parts
    decreases |parts|
  {
    SplitNoSeparator(parts[0], "");
    assert parts[0] + "" == parts[0];
    if |parts| > 1 {
      var rest := JoinWith(parts[1..]);
      SplitJoinWith(parts[1..]);
      assert ("/" + rest)[1..] == rest;
      assert Split("/" + rest) == [""] + parts[1..];
      SplitNoSeparator(parts[0], "/" + rest);
      assert parts[0] + "/" + rest == parts[0] + ("/" + rest);
      assert parts == [parts[0]] + parts[1..];
    }
  }

  /** Canonical elements resolve to themselves. */
  lemma {:induction false} ResolveCanonicalIsIdentity(parts: seq<string>, rooted: bool, kept: seq<string>)
    requires Canonical(kept + parts, rooted)
    ensures Resolve(parts, rooted, kept) == kept + parts
    decreases |parts|
  {
    if parts == [] {
      assert kept + parts == kept;
    } else {
      var part := parts[0];
      assert part == (kept + parts)[|kept|];
      if part == ".." && |kept| > 0 {
        assert kept[|kept| - 1] == (kept + parts)[|kept| - 1];
      }
      assert (kept + [part]) + parts[1..] == kept + parts;
      ResolveCanonicalIsIdentity(parts[1..], rooted, kept + [part]);
    }
  }

  /** `Clean` is idempotent: a cleaned path is already clean. */
  lemma CleanIdempotent(path: string)
    ensures Clean(Clean(path)) == Clean(path)
  {
    CleanOfDot();
    if path != "" {
      if path[0] == Separator {
        CleanRootedIdempotent(path);
      } else {
        CleanRelativeIdempotent(path);
      }
    }
  }

  /** The empty result of `Clean` is ".", which cleans to itself. */
  lemma CleanOfDot()
    ensures Clean(".") == "."
  {
    assert Split(".") == ["."] by {
      SplitNoSeparator(".", "");
      assert "." + "" == ".";
    }
    assert Resolve(["."], false, []) == [];
  }

  /** A rooted path cleans to "/" followed by canonical elements, which clean to themselves. */
  lemma CleanRootedIdempotent(path: string)
    requires path != "" && path[0] == Separator
    ensures Clean(Clean(path)) == Clean(path)
  {
    var parts := Resolve(Split(path), true, []);
    CleanIsCanonical(path);
    var c := Clean(path);
    assert c[0] == Separator && c[1..] == JoinWith(parts);
    if parts == [] {
      assert Split(c) == ["", ""] by {
        assert c == "/";
        assert c[1..] == "";
      }
      assert Resolve(Split(c), true, []) == [];
    } else {
      var none: seq<string> := [];
      SplitJoinWith(parts);
      assert Split(c) == [""] + parts;
      assert none + parts == parts;
      ResolveCanonicalIsIdentity(parts, true, none);
      assert Resolve(Split(c), true, []) == Resolve(parts, true, []);
    }
  }

  /** A relative path cleans to "." or to canonical elements, which clean to themselves. */
  lemma CleanRelativeIdempotent(path: string)
    requires path != "" && path[0] != Separator
    ensures Clean(Clean(path)) == Clean(path)
  {
    var parts := Resolve(Split(path), false, []);
    CleanIsCanonical(path);
    if parts == [] {
      CleanOfDot();
    } else {
      var none: seq<string> := [];
      JoinWithStart(parts);
      SplitJoinWith(parts);
      assert none + parts == parts;
      ResolveCanonicalIsIdentity(parts, false, none);
    }
  }

  /** `Join` gives a clean path: joining twice cleans nothing more. */
  lemma JoinIsClean(dir: string, name: string)
    requires dir != "" || name != ""
    ensures Clean(Join(dir, name)) == Join(dir, name)
  {
    if dir != "" {
      CleanIdempotent(dir + "/" + name);
    } else {
      CleanIdempotent(name);
    }
  }
}
