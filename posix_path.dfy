/** `os.path.join` of two components on a POSIX system. */
module PosixPath {

  const Sep: char := '/'

  predicate IsAbsolute(p: string) {
    |p| > 0 && p[0] == Sep
  }

  /** An absolute second component replaces the first; otherwise the two are joined
      with exactly one separator added when the first is non-empty and does not already
      end in one. */
  function Join(a: string, b: string): (r: string)
    ensures IsAbsolute(b) ==> r == b
    ensures !IsAbsolute(b) ==> |a| + |b| <= |r| <= |a| + |b| + 1
  {
    if IsAbsolute(b) then b
    else if a == [] || a[|a| - 1] == Sep then a + b
    else a + [Sep] + b
  }

  /** A joined path starts with the base, unless the component is absolute, and always
      ends with the component. */
  lemma JoinShape(a: string, b: string)
    ensures var r := Join(a, b); !IsAbsolute(b) ==> |r| >= |a| && r[..|a|] == a
    ensures var r := Join(a, b); |r| >= |b| && r[|r| - |b|..] == b
  {
    var r := Join(a, b);
    if !IsAbsolute(b) {
      var lead := if a == [] || a[|a| - 1] == Sep then a else a + [Sep];
      assert r == lead + b;
      assert r[..|a|] == lead[..|a|];
    }
  }

  /** With the same base, two components that agree on being absolute give the same
      joined path only if they are the same component. */
  lemma {:induction false} JoinCancels(a: string, b1: string, b2: string)
    requires IsAbsolute(b1) == IsAbsolute(b2)
    ensures Join(a, b1) == Join(a, b2) ==> b1 == b2
  {
    if Join(a, b1) == Join(a, b2) && !IsAbsolute(b1) {
      var lead := if a == [] || a[|a| - 1] == Sep then a else a + [Sep];
      assert Join(a, b1) == lead + b1 && Join(a, b2) == lead + b2;
      assert b1 == (lead + b1)[|lead|..];
      assert b2 == (lead + b2)[|lead|..];
    }
  }
}
