/** Strings and slash-separated paths: the parts of strings and
    path/filepath that the template code relies on. */
module Paths {

  /** The marker that makes a file a template (templates.go:50, 91). */
  const TemplateSuffix: string := ".tmpl"

  /** The descriptor file at the root of every template (templates.go:30, 71). */
  const MetaFileName: string := "template.json"

  /** strings.HasSuffix */
  predicate HasSuffix(s: string, suffix: string) {
    |suffix| <= |s| && s[|s| - |suffix|..] == suffix
  }

  /** strings.TrimSuffix: removes exactly one trailing `suffix`, if present. */
  function TrimSuffix(s: string, suffix: string): (r: string)
    ensures HasSuffix(s, suffix) ==> r + suffix == s
    ensures !HasSuffix(s, suffix) ==> r == s
  {
    if HasSuffix(s, suffix) then s[..|s| - |suffix|] else s
  }

  /** Removing the suffix undoes appending it. */
  lemma TrimSuffixOfAppend(k: string, suffix: string)
    ensures HasSuffix(k + suffix, suffix)
    ensures TrimSuffix(k + suffix, suffix) == k
  {
    assert (k + suffix)[|k|..] == suffix;
    assert (k + suffix)[..|k|] == k;
  }

  /** Two strings that both carry the suffix are told apart by what is left
      once it is removed. */
  lemma TrimSuffixInjective(s1: string, s2: string, suffix: string)
    requires HasSuffix(s1, suffix) && HasSuffix(s2, suffix)
    requires TrimSuffix(s1, suffix) == TrimSuffix(s2, suffix)
    ensures s1 == s2
  {
    assert s1 == TrimSuffix(s1, suffix) + suffix;
  }

  /** Removes every trailing '/': the part of filepath.Clean that the joins
      in the template code can meet, since a key made from a file named
      exactly ".tmpl" ends in '/'. */
  function TrimTrailingSlashes(s: string): string
    decreases |s|
  {
    if s != "" && s[|s| - 1] == '/' then TrimTrailingSlashes(s[..|s| - 1]) else s
  }

  /** What TrimTrailingSlashes leaves: a prefix of `s` that does not end in
      '/', followed in `s` by nothing but slashes. */
  lemma {:induction false} TrimTrailingSlashesShape(s: string)
    ensures var r := TrimTrailingSlashes(s);
            && |r| <= |s| && s[..|r|] == r
            && (r == "" || r[|r| - 1] != '/')
            && forall j | |r| <= j < |s| :: s[j] == '/'
    decreases |s|
  {
    if s != "" && s[|s| - 1] == '/' {
      var t := s[..|s| - 1];
      TrimTrailingSlashesShape(t);
      var r := TrimTrailingSlashes(t);
      assert s[..|r|] == t[..|r|];
    }
  }

  /** filepath.Join of two elements: trailing slashes of the second are
      cleaned away, an empty element is dropped, otherwise the two are
      joined by one '/'. */
  function Join(a: string, b: string): string {
    var c := TrimTrailingSlashes(b);
    if a == "" then c else if c == "" then a else a + "/" + c
  }

  /** Joining a fixed directory tells relative paths apart up to trailing
      slashes: two of them land on the same full path only when they agree
      once those are removed ("a" and "a/" do). */
  lemma {:induction false} JoinInjective(a: string, b1: string, b2: string)
    requires Join(a, b1) == Join(a, b2)
    ensures TrimTrailingSlashes(b1) == TrimTrailingSlashes(b2)
  {
    var c1 := TrimTrailingSlashes(b1);
    var c2 := TrimTrailingSlashes(b2);
    if a != "" && c1 != "" && c2 != "" {
      assert c1 == (a + "/" + c1)[|a| + 1..];
      assert c2 == (a + "/" + c2)[|a| + 1..];
    }
  }

  /** A trailing slash on the relative path does not change the full path. */
  lemma JoinTrailingSlash(a: string, b: string)
    ensures Join(a, b + "/") == Join(a, b)
  {
    assert (b + "/")[..|b + "/"| - 1] == b;
  }

  /** A suffix without '/' is seen on a joined path exactly when it is seen
      on its last element, when that is non-empty and already clean. */
  lemma {:induction false} JoinHasSuffix(a: string, b: string, suffix: string)
    requires b != "" && b[|b| - 1] != '/'
    requires '/' !in suffix
    ensures HasSuffix(Join(a, b), suffix) <==> HasSuffix(b, suffix)
  {
    assert TrimTrailingSlashes(b) == b;
    if a != "" {
      var j := a + "/" + b;
      if |suffix| <= |b| {
        assert j[|j| - |suffix|..] == b[|b| - |suffix|..];
      } else if |suffix| <= |j| {
        var k := |suffix| - 1 - |b|;
        assert j[|j| - |suffix|..][k] == j[|a|] == '/';
      }
    }
  }

  /** Index of the last '/' in `p`, or -1 when there is none. */
  function LastSlash(p: string): (i: int)
    ensures -1 <= i < |p|
    ensures i >= 0 ==> p[i] == '/'
    ensures forall j :: i < j < |p| ==> p[j] != '/'
    decreases |p|
  {
    if p == [] then -1
    else if p[|p| - 1] == '/' then |p| - 1
    else LastSlash(p[..|p| - 1])
  }

  /** filepath.Dir without cleaning: everything before the last '/', or "."
      when there is no '/', or "/" when the only '/' leads. */
  function Dir(p: string): (r: string)
    ensures (forall j | 0 <= j < |p| :: p[j] != '/') ==> r == "."
    ensures (exists j | 0 < j < |p| :: p[j] == '/') ==>
              0 < |r| < |p| && p[..|r|] == r && p[|r|] == '/'
              && forall j | |r| < j < |p| :: p[j] != '/'
    ensures p != "" && p[0] == '/' && (forall j | 0 < j < |p| :: p[j] != '/') ==> r == "/"
  {
    var i := LastSlash(p);
    if i < 0 then "." else if i == 0 then "/" else p[..i]
  }

  /** The parent of a name joined to a directory is that directory. */
  lemma DirOfJoin(a: string, b: string)
    requires a != "" && b != ""
    requires forall j | 0 <= j < |b| :: b[j] != '/'
    ensures Dir(Join(a, b)) == a
  {
    assert TrimTrailingSlashes(b) == b;
    var p := a + "/" + b;
    assert p[|a|] == '/';
    assert forall j | |a| < j < |p| :: p[j] == b[j - |a| - 1];
  }

  /** What os.MkdirAll(d) makes sure is a directory: `d` itself and each
      non-empty prefix of `d` that ends just before a '/'. */
  function Ancestors(d: string): (r: set<string>)
    ensures d in r
    ensures forall i | 0 < i < |d| && d[i] == '/' :: d[..i] in r
    ensures forall a | a in r :: a == d || (0 < |a| < |d| && d[..|a|] == a && d[|a|] == '/')
  {
    {d} + set i | 0 < i < |d| && d[i] == '/' :: d[..i]
  }
}
