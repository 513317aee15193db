/**
 * File-system paths as sequences of components, with the parts of
 * `pathlib.PurePosixPath` the organizer relies on: name, parent, suffix,
 * stem, ancestry (`path.parents`) and the ordering `sorted()` uses.
 * `[]` is the current directory "."; an absolute path starts with "/".
 */
module Paths {
  import opened Text

  type Path = seq<string>

  predicate IsAbsolute(p: Path) { |p| > 0 && p[0] == "/" }

  /** `path.name`: the last component, "" for "." and "/". */
  function Name(p: Path): string
  {
    if p == [] || p == ["/"] then "" else p[|p| - 1]
  }

  /** `path.parent`: "." and "/" are their own parents. */
  function Parent(p: Path): (r: Path)
    ensures |r| <= |p| && r == p[..|r|]
    ensures |p| > 0 && p != ["/"] ==> r == p[..|p| - 1]
  {
    if p == [] || p == ["/"] then p else p[..|p| - 1]
  }

  /** `path.parent / name`, replacing the last component. */
  function WithName(p: Path, name: string): Path
  {
    Parent(p) + [name]
  }

  /** Index of the last '.' in `s`, or -1 (`str.rfind('.')`). */
  function LastDot(s: string): (i: int)
    ensures -1 <= i < |s|
    ensures i >= 0 ==> s[i] == '.'
    ensures forall j | i < j < |s| :: s[j] != '.'
  {
    if s == [] then -1
    else if s[|s| - 1] == '.' then |s| - 1
    else LastDot(s[..|s| - 1])
  }

  /** The name has a suffix: a dot that is neither first nor last. */
  predicate HasSuffix(name: string)
  {
    0 < LastDot(name) < |name| - 1
  }

  /** `path.suffix`. */
  function Suffix(p: Path): (r: string)
    ensures r == [] || (r[0] == '.' && |r| >= 2 && '.' !in r[1..])
    ensures EndsWith(Name(p), r)
  {
    var n := Name(p);
    if HasSuffix(n) then n[LastDot(n)..] else []
  }

  /** `path.stem`. */
  function Stem(p: Path): (r: string)
    ensures Name(p) == r + Suffix(p)
  {
    var n := Name(p);
    if HasSuffix(n) then n[..LastDot(n)] else n
  }

  /** `a` is a proper prefix of `p`. */
  predicate IsStrictPrefix(a: Path, p: Path)
  {
    |a| < |p| && p[..|a|] == a
  }

  /**
   * `a in p.parents`. For a relative path the chain ends at "." (the
   * empty path); for an absolute one it ends at "/".
   */
  predicate IsAncestor(a: Path, p: Path)
  {
    IsStrictPrefix(a, p) && (a != [] || !IsAbsolute(p))
  }

  // ---------------------------------------------------------------------
  // Ordering: `sorted()` on paths compares their parts as lists of
  // strings, and strings by code point.

  predicate StrLt(a: string, b: string)
  {
    b != [] && (a == [] || a[0] < b[0] || (a[0] == b[0] && StrLt(a[1..], b[1..])))
  }

  predicate PathLt(a: Path, b: Path)
  {
    b != [] && (a == [] || StrLt(a[0], b[0]) || (a[0] == b[0] && PathLt(a[1..], b[1..])))
  }

  lemma {:induction false} StrLtIrreflexive(a: string)
    ensures !StrLt(a, a)
  {
    if a != [] { StrLtIrreflexive(a[1..]); }
  }

  lemma {:induction false} StrLtTransitive(a: string, b: string, c: string)
    requires StrLt(a, b) && StrLt(b, c)
    ensures StrLt(a, c)
  {
    if a != [] && a[0] == b[0] && b[0] == c[0] {
      StrLtTransitive(a[1..], b[1..], c[1..]);
    }
  }

  lemma {:induction false} StrLtTotal(a: string, b: string)
    ensures a == b || StrLt(a, b) || StrLt(b, a)
  {
    if a != [] && b != [] && a[0] == b[0] {
      StrLtTotal(a[1..], b[1..]);
      if a[1..] == b[1..] {
        assert a == [a[0]] + a[1..] && b == [b[0]] + b[1..];
      }
    }
  }

  lemma {:induction false} PathLtIrreflexive(a: Path)
    ensures !PathLt(a, a)
  {
    if a != [] {
      StrLtIrreflexive(a[0]);
      PathLtIrreflexive(a[1..]);
    }
  }

  lemma {:induction false} PathLtTransitive(a: Path, b: Path, c: Path)
    requires PathLt(a, b) && PathLt(b, c)
    ensures PathLt(a, c)
  {
    if a != [] {
      if StrLt(a[0], b[0]) && StrLt(b[0], c[0]) {
        StrLtTransitive(a[0], b[0], c[0]);
      } else if a[0] == b[0] && b[0] == c[0] {
        PathLtTransitive(a[1..], b[1..], c[1..]);
      }
    }
  }

  lemma {:induction false} PathLtTotal(a: Path, b: Path)
    ensures a == b || PathLt(a, b) || PathLt(b, a)
  {
    if a != [] && b != [] {
      StrLtTotal(a[0], b[0]);
      if a[0] == b[0] {
        PathLtTotal(a[1..], b[1..]);
        if a[1..] == b[1..] {
          assert a == [a[0]] + a[1..] && b == [b[0]] + b[1..];
        }
      }
    }
  }

  predicate IsLeast(m: Path, s: set<Path>)
  {
    m in s && forall q | q in s && q != m :: PathLt(m, q)
  }

  lemma {:induction false} LeastExists(s: set<Path>)
    requires s != {}
    ensures exists m :: IsLeast(m, s)
    decreases |s|
  {
    var x :| x in s;
    if s != {x} {
      var rest := s - {x};
      LeastExists(rest);
      var m :| IsLeast(m, rest);
      PathLtTotal(x, m);
      if PathLt(x, m) {
        forall q | q in s && q != x ensures PathLt(x, q) {
          if q != m { PathLtTransitive(x, m, q); }
        }
        assert IsLeast(x, s);
      } else {
        assert IsLeast(m, s);
      }
    } else {
      assert IsLeast(x, s);
    }
  }

  lemma {:induction false} LeastUnique(m: Path, n: Path, s: set<Path>)
    requires IsLeast(m, s) && IsLeast(n, s)
    ensures m == n
  {
    if m != n {
      PathLtTransitive(m, n, m);
      PathLtIrreflexive(m);
    }
  }

  lemma {:induction false} LeastIsUnique(s: set<Path>)
    ensures forall m, n | IsLeast(m, s) && IsLeast(n, s) :: m == n
  {
    forall m, n | IsLeast(m, s) && IsLeast(n, s) ensures m == n {
      LeastUnique(m, n, s);
    }
  }

  predicate Sorted(r: seq<Path>)
  {
    forall i, j | 0 <= i < j < |r| :: PathLt(r[i], r[j])
  }

  /** `sorted(set_of_paths)`: the paths of `s` in increasing order, once each. */
  function SortedPaths(s: set<Path>): (r: seq<Path>)
    ensures |r| == |s|
    ensures forall p :: p in r <==> p in s
    ensures Sorted(r)
    decreases |s|
  {
    if s == {} then []
    else
      LeastExists(s);
      LeastIsUnique(s);
      var m :| IsLeast(m, s);
      var rest := SortedPaths(s - {m});
      [m] + rest
  }

  /** The tail of a sorted sequence holds every path of it but the first. */
  lemma {:induction false} SortedTail(r: seq<Path>)
    requires Sorted(r) && r != []
    ensures forall q :: q in r[1..] <==> q in r && q != r[0]
  {
    forall q ensures q in r[1..] <==> q in r && q != r[0] {
      if q in r[1..] {
        var k :| 1 <= k < |r| && r[k] == q;
        SortedDistinct(r, 0, k);
      }
      if q in r && q != r[0] {
        var k :| 0 <= k < |r| && r[k] == q;
        assert r[1..][k - 1] == q;
      }
    }
  }

  /** `sorted` has one result: two sorted sequences of the same paths are equal. */
  lemma {:induction false} SortedUnique(a: seq<Path>, b: seq<Path>)
    requires Sorted(a) && Sorted(b)
    requires forall q :: q in a <==> q in b
    ensures a == b
    decreases |a|
  {
    assert forall i | 0 <= i < |b| :: b[i] in a;
    if a == [] {
      assert |b| == 0;
    } else {
      assert a[0] in b && b != [];
      assert b[0] in a;
      if a[0] != b[0] {
        var i :| 0 <= i < |a| && a[i] == b[0];
        var j :| 0 <= j < |b| && b[j] == a[0];
        PathLtTransitive(a[0], b[0], a[0]);
        PathLtIrreflexive(a[0]);
        assert false;
      }
      SortedTail(a);
      SortedTail(b);
      SortedUnique(a[1..], b[1..]);
      assert a == [a[0]] + a[1..] && b == [b[0]] + b[1..];
    }
  }

  /** Sorted sequences hold no path twice. */
  lemma {:induction false} SortedDistinct(r: seq<Path>, i: int, j: int)
    requires Sorted(r) && 0 <= i < |r| && 0 <= j < |r| && i != j
    ensures r[i] != r[j]
  {
    if i < j { PathLtIrreflexive(r[i]); } else { PathLtIrreflexive(r[j]); }
  }
}
