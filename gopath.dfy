/** The parts of Go's `strings` and `path/filepath` packages that the client's
    naming and filtering rules are built from, on Unix (separator '/').
    `filepath.Join` is modelled for the inputs the client gives it; the
    lexical cleaning of "." and ".." elements is not part of this model. */
module GoPath {

  const Separator: char := '/'

  /** strings.HasPrefix */
  predicate HasPrefix(s: string, prefix: string) {
    |prefix| <= |s| && s[..|prefix|] == prefix
  }

  /** strings.HasSuffix */
  predicate HasSuffix(s: string, suffix: string) {
    |suffix| <= |s| && s[|s| - |suffix|..] == suffix
  }

  /** `s` starts with `prefix` exactly when `prefix` fits and agrees with
      `s` character by character from the front. */
  lemma HasPrefixByChars(s: string, prefix: string)
    ensures HasPrefix(s, prefix) <==> |prefix| <= |s| && forall i :: 0 <= i < |prefix| ==> s[i] == prefix[i]
  {
    if |prefix| <= |s| && forall i :: 0 <= i < |prefix| ==> s[i] == prefix[i] {
      assert s[..|prefix|] == prefix;
    }
  }

  /** `s` ends with `suffix` exactly when `suffix` fits and agrees with the
      last characters of `s` one by one. */
  lemma HasSuffixByChars(s: string, suffix: string)
    ensures HasSuffix(s, suffix) <==>
      (|suffix| <= |s| && forall i :: 0 <= i < |suffix| ==> s[|s| - |suffix| + i] == suffix[i])
  {
    if |suffix| <= |s| && forall i :: 0 <= i < |suffix| ==> s[|s| - |suffix| + i] == suffix[i] {
      assert s[|s| - |suffix|..] == suffix;
    }
  }

  predicate NoSlash(s: string) {
    forall i :: 0 <= i < |s| ==> s[i] != Separator
  }

  predicate NoDot(s: string) {
    forall i :: 0 <= i < |s| ==> s[i] != '.'
  }

  /** strings.TrimSuffix: drops `suffix` once, and only when `s` ends with it. */
  function TrimSuffix(s: string, suffix: string): (r: string)
    ensures HasSuffix(s, suffix) ==> r + suffix == s
    ensures !HasSuffix(s, suffix) ==> r == s
  {
    if HasSuffix(s, suffix) then s[..|s| - |suffix|] else s
  }

  /** unicode.ToLower restricted to ASCII letters. */
  function LowerChar(c: char): (d: char)
    ensures !('A' <= d <= 'Z')
    ensures !('A' <= c <= 'Z') ==> d == c
  {
    if 'A' <= c <= 'Z' then (c as int + 32) as char else c
  }

  /** strings.ToLower, letter by letter. */
  function ToLower(s: string): (r: string)
    ensures |r| == |s|
    ensures forall i :: 0 <= i < |s| ==> r[i] == LowerChar(s[i])
  {
    seq(|s|, i requires 0 <= i < |s| => LowerChar(s[i]))
  }

  /** filepath.Ext: the suffix from the final '.' of the final element, or ""
      when that element has no dot. */
  function Ext(path: string): (e: string)
    ensures HasSuffix(path, e)
    ensures NoSlash(e)
    ensures e != [] ==> e[0] == '.' && NoDot(e[1..])
    decreases |path|
  {
    if path == [] || path[|path| - 1] == Separator then ""
    else if path[|path| - 1] == '.' then "."
    else
      var e := Ext(path[..|path| - 1]);
      if e == [] then "" else e + [path[|path| - 1]]
  }

  /** The text after the last separator (all of `path` when it has none). */
  function LastElem(path: string): (r: string)
    ensures HasSuffix(path, r)
    ensures NoSlash(r)
    ensures |r| < |path| ==> path[|path| - |r| - 1] == Separator
    decreases |path|
  {
    if path == [] || path[|path| - 1] == Separator then ""
    else
      var init := path[..|path| - 1];
      var r := LastElem(init) + [path[|path| - 1]];
      assert path[|path| - |r|..] == init[|init| - |r| + 1..] + [path[|path| - 1]];
      r
  }

  /** The directory part of `path`: everything up to and including its last separator. */
  function Dir(path: string): (d: string)
    ensures d + LastElem(path) == path
    ensures d == [] || d[|d| - 1] == Separator
  {
    path[..|path| - |LastElem(path)|]
  }

  function TrimTrailingSlashes(path: string): (r: string)
    ensures HasPrefix(path, r)
    ensures r == [] || r[|r| - 1] != Separator
    ensures forall i :: |r| <= i < |path| ==> path[i] == Separator
    decreases |path|
  {
    if path != [] && path[|path| - 1] == Separator then TrimTrailingSlashes(path[..|path| - 1])
    else path
  }

  function TrimLeadingSlashes(path: string): (r: string)
    ensures HasSuffix(path, r)
    ensures r == [] || r[0] != Separator
    ensures forall i :: 0 <= i < |path| - |r| ==> path[i] == Separator
    decreases |path|
  {
    if path != [] && path[0] == Separator then TrimLeadingSlashes(path[1..])
    else path
  }

  /** filepath.Base: the last element after trailing separators are dropped;
      "." for the empty path and "/" for a path made only of separators. */
  function Base(path: string): (r: string)
    ensures r != []
    ensures r == [Separator] || NoSlash(r)
  {
    if path == [] then "."
    else
      var t := TrimTrailingSlashes(path);
      if t == [] then [Separator]
      else LastElem(t)
  }

  /** filepath.Join of two elements, for a directory and a file name: an empty
      directory leaves the name alone, otherwise exactly one separator joins
      them. */
  function Join(dir: string, name: string): (r: string)
    ensures dir == [] ==> r == name
    ensures dir != [] ==> HasPrefix(r, TrimTrailingSlashes(dir) + [Separator])
  {
    if dir == [] then name
    else TrimTrailingSlashes(dir) + [Separator] + TrimLeadingSlashes(name)
  }

  // ---------------------------------------------------------------------
  // Facts about the helpers that the naming rules rely on.

  /** Only the final dotted part is an extension: `p.x` has extension `.x`
      whatever `p` holds (`a.tar.gz` has `.gz`). */
  lemma {:induction false} ExtOfDotted(p: string, x: string)
    requires NoSlash(x) && NoDot(x)
    ensures Ext(p + "." + x) == "." + x
    decreases |x|
  {
    var s := p + "." + x;
    if x == [] {
      assert s[|s| - 1] == '.';
    } else {
      var x' := x[..|x| - 1];
      assert s[..|s| - 1] == p + "." + x';
      assert s[|s| - 1] == x[|x| - 1];
      ExtOfDotted(p, x');
      assert ("." + x') + [x[|x| - 1]] == "." + x;
    }
  }

  /** A final element with no dot has no extension. */
  lemma {:induction false} ExtOfUndotted(p: string, x: string)
    requires NoSlash(x) && NoDot(x)
    requires p == [] || p[|p| - 1] == Separator
    ensures Ext(p + x) == ""
    decreases |x|
  {
    var s := p + x;
    if x != [] {
      assert s[..|s| - 1] == p + x[..|x| - 1];
      ExtOfUndotted(p, x[..|x| - 1]);
    } else {
      assert s == p;
    }
  }

  /** Appending separator-free text extends the last element. */
  lemma {:induction false} LastElemAppend(p: string, t: string)
    requires NoSlash(t)
    ensures LastElem(p + t) == LastElem(p) + t
    decreases |t|
  {
    if t == [] {
      assert p + t == p;
    } else {
      var s := p + t;
      var t' := t[..|t| - 1];
      var c := t[|t| - 1];
      assert s[|s| - 1] == c && c != Separator;
      assert s[..|s| - 1] == p + t';
      assert LastElem(s) == LastElem(p + t') + [c];
      LastElemAppend(p, t');
      assert t' + [c] == t;
    }
  }

  /** Appending separator-free text keeps the directory part. */
  lemma DirAppend(p: string, t: string)
    requires NoSlash(t)
    ensures Dir(p + t) == Dir(p)
  {
    LastElemAppend(p, t);
    var k := |p| - |LastElem(p)|;
    assert Dir(p + t) == (p + t)[..k];
    assert (p + t)[..k] == p[..k];
  }

  /** The base name of `d/n` is `n` when `n` is one non-empty element. */
  lemma BaseOfElem(d: string, n: string)
    requires n != [] && NoSlash(n)
    requires d == [] || d[|d| - 1] == Separator
    ensures Base(d + n) == n
  {
    assert TrimTrailingSlashes(d + n) == d + n;
    LastElemAppend(d, n);
    if d != [] {
      assert LastElem(d) == [];
    }
  }

  /** Removing leading separators keeps any suffix that starts with something else. */
  lemma {:induction false} TrimLeadingKeepsSuffix(name: string, t: string)
    requires HasSuffix(name, t) && t != [] && t[0] != Separator
    ensures HasSuffix(TrimLeadingSlashes(name), t)
    decreases |name|
  {
    if name != [] && name[0] == Separator {
      assert |t| < |name|;
      assert name[1..][|name[1..]| - |t|..] == name[|name| - |t|..];
      TrimLeadingKeepsSuffix(name[1..], t);
    }
  }

  /** Joining never hides the end of the name, when that end is not a separator. */
  lemma JoinKeepsSuffix(dir: string, name: string, t: string)
    requires HasSuffix(name, t) && t != [] && t[0] != Separator
    ensures HasSuffix(Join(dir, name), t)
  {
    if dir != [] {
      TrimLeadingKeepsSuffix(name, t);
      var head := TrimTrailingSlashes(dir) + [Separator];
      assert Join(dir, name) == head + TrimLeadingSlashes(name);
      SuffixAfterPrefix(head, TrimLeadingSlashes(name), t);
    }
  }

  lemma SuffixAfterPrefix(a: string, s: string, t: string)
    requires HasSuffix(s, t)
    ensures HasSuffix(a + s, t)
  {
    assert (a + s)[|a + s| - |t|..] == s[|s| - |t|..];
  }

  /** A one-element name joined under a directory is the last element of the
      result, and the result's directory comes from `dir` alone. */
  lemma JoinPlacesName(dir: string, name: string)
    requires dir != [] && name != [] && NoSlash(name)
    ensures LastElem(Join(dir, name)) == name
    ensures Dir(Join(dir, name)) == TrimTrailingSlashes(dir) + [Separator]
  {
    var head := TrimTrailingSlashes(dir) + [Separator];
    assert TrimLeadingSlashes(name) == name;
    assert Join(dir, name) == head + name;
    assert LastElem(head) == [];
    LastElemAppend(head, name);
    DirAppend(head, name);
    assert Dir(head) == head;
  }

  /** With no separators to trim on either side, Join is plain concatenation
      around one separator. */
  lemma JoinPlain(dir: string, name: string)
    requires dir != [] && dir[|dir| - 1] != Separator
    requires name == [] || name[0] != Separator
    ensures Join(dir, name) == dir + [Separator] + name
  {
  }

  // ---------------------------------------------------------------------
  // strings.Cut at a single character.

  /** The text before the first `c`, or all of `s` (the first result of strings.Cut). */
  function Before(s: string, c: char): (r: string)
    ensures HasPrefix(s, r) && c !in r
    ensures |r| < |s| ==> s[|r|] == c
  {
    if s == [] || s[0] == c then [] else [s[0]] + Before(s[1..], c)
  }

  /** The text after the first `c`, or "" when there is none (the second result of strings.Cut). */
  function After(s: string, c: char): (r: string)
    ensures HasSuffix(s, r)
    ensures c in s ==> |r| < |s| && s[|s| - |r| - 1] == c
    ensures c !in s ==> r == []
  {
    if s == [] then []
    else if s[0] == c then s[1..]
    else After(s[1..], c)
  }

  lemma {:induction false} BeforeConcat(a: string, b: string, c: char)
    requires c !in a
    ensures Before(a + b, c) == a + Before(b, c)
    decreases |a|
  {
    if a != [] {
      assert (a + b)[1..] == a[1..] + b;
      BeforeConcat(a[1..], b, c);
    } else {
      assert a + b == b;
    }
  }

  lemma {:induction false} AfterConcat(a: string, b: string, c: char)
    requires c !in a
    ensures After(a + b, c) == After(b, c)
    decreases |a|
  {
    if a != [] {
      assert (a + b)[1..] == a[1..] + b;
      AfterConcat(a[1..], b, c);
    } else {
      assert a + b == b;
    }
  }

  /** Cutting at the first `c` of `a c b` gives back `a` and `b`. */
  lemma CutAtFirst(a: string, b: string, c: char)
    requires c !in a
    ensures Before(a + [c] + b, c) == a
    ensures After(a + [c] + b, c) == b
  {
    assert a + [c] + b == a + ([c] + b);
    BeforeConcat(a, [c] + b, c);
    AfterConcat(a, [c] + b, c);
    assert Before([c] + b, c) == [];
    assert ([c] + b)[1..] == b;
  }

  /** TrimSuffix undoes appending the suffix. */
  lemma TrimAppended(a: string, b: string)
    ensures TrimSuffix(a + b, b) == a
  {
    assert (a + b)[|a|..] == b;
    assert (a + b)[..|a + b| - |b|] == a;
  }

  /** Concatenation associates. */
  lemma AppendAssociates<T>(a: seq<T>, b: seq<T>, c: seq<T>)
    ensures (a + b) + c == a + (b + c)
  {
  }
}
