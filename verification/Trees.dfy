/** Tree objects: file listings kept sorted by path. */
module Trees {
  import opened Wrappers
  import opened Objects
  import opened Sequences

  /** a does not come after b in the order of paths. */
  predicate NotAfter(a: string, b: string) {
    a == [] || (b != [] && (a[0] < b[0] || (a[0] == b[0] && NotAfter(a[1..], b[1..]))))
  }

  /** The order is lexical: b begins with a, or is greater at the first difference. */
  lemma {:induction false} NotAfterMeaning(a: string, b: string)
    ensures NotAfter(a, b) <==> a <= b || exists i :: 0 <= i < |a| && i < |b| && a[..i] == b[..i] && a[i] < b[i]
  {
    if a != [] && b != [] {
      if a[0] == b[0] {
        NotAfterMeaning(a[1..], b[1..]);
        SameFirst(a, b);
      } else if a[0] < b[0] {
        assert a[..0] == b[..0];
      } else {
        forall i | 0 <= i < |a| && i < |b| && a[i] < b[i]
          ensures a[..i] != b[..i]
        {
          assert i == 0 || a[..i][0] != b[..i][0];
        }
      }
    }
  }

  lemma SameFirst(a: string, b: string)
    requires a != [] && b != [] && a[0] == b[0]
    ensures a <= b <==> a[1..] <= b[1..]
    ensures (exists i :: 0 <= i < |a| && i < |b| && a[..i] == b[..i] && a[i] < b[i])
      <==> exists i :: 0 <= i < |a[1..]| && i < |b[1..]| && a[1..][..i] == b[1..][..i] && a[1..][i] < b[1..][i]
  {
    var x, y := a[1..], b[1..];
    assert a == [a[0]] + x && b == [b[0]] + y;
    if i :| 0 <= i < |a| && i < |b| && a[..i] == b[..i] && a[i] < b[i] {
      assert x[..i - 1] == a[..i][1..] && y[..i - 1] == b[..i][1..];
      assert x[i - 1] < y[i - 1];
    }
    if i :| 0 <= i < |x| && i < |y| && x[..i] == y[..i] && x[i] < y[i] {
      assert a[..i + 1] == [a[0]] + x[..i] && b[..i + 1] == [b[0]] + y[..i];
      assert a[i + 1] < b[i + 1];
    }
  }

  lemma {:induction false} PathOrder(a: string, b: string)
    ensures NotAfter(a, b) || NotAfter(b, a)
    ensures NotAfter(a, b) && NotAfter(b, a) ==> a == b
  {
    if a != [] && b != [] && a[0] == b[0] {
      PathOrder(a[1..], b[1..]);
      assert a == [a[0]] + a[1..] && b == [b[0]] + b[1..];
    }
  }

  lemma {:induction false} PathOrderTransitive(a: string, b: string, c: string)
    requires NotAfter(a, b) && NotAfter(b, c)
    ensures NotAfter(a, c)
  {
    if a != [] && b != [] && c != [] && a[0] == b[0] == c[0] {
      PathOrderTransitive(a[1..], b[1..], c[1..]);
    }
  }

  ghost predicate Sorted(es: seq<TreeEntry>) {
    forall i, j :: 0 <= i < j < |es| ==> NotAfter(es[i].path, es[j].path)
  }

  ghost predicate DistinctPaths(es: seq<TreeEntry>) {
    forall i, j :: 0 <= i < j < |es| ==> es[i].path != es[j].path
  }

  /** Inserts e after the entries that may precede it. */
  function Insert(es: seq<TreeEntry>, e: TreeEntry): seq<TreeEntry> {
    if es == [] || NotAfter(Last(es).path, e.path) then es + [e] else Insert(Front(es), e) + [Last(es)]
  }

  /** The stable sort by path that makes a tree. */
  function SortEntries(es: seq<TreeEntry>): seq<TreeEntry> {
    if es == [] then [] else Insert(SortEntries(Front(es)), Last(es))
  }

  lemma {:induction false} InsertMeaning(es: seq<TreeEntry>, e: TreeEntry)
    ensures forall x :: x in Insert(es, e) <==> x in es || x == e
    ensures |Insert(es, e)| == |es| + 1
    ensures Sorted(es) ==> Sorted(Insert(es, e))
  {
    if es != [] && !NotAfter(Last(es).path, e.path) {
      InsertMeaning(Front(es), e);
      if Sorted(es) {
        PathOrder(Last(es).path, e.path);
        forall x | x in Insert(Front(es), e)
          ensures NotAfter(x.path, Last(es).path)
        {
          if x != e {
            var i :| 0 <= i < |Front(es)| && Front(es)[i] == x;
          }
        }
      }
    } else if es != [] && Sorted(es) {
      forall i | 0 <= i < |es|
        ensures NotAfter(es[i].path, e.path)
      {
        if i < |es| - 1 {
          PathOrderTransitive(es[i].path, Last(es).path, e.path);
        }
      }
    }
  }

  lemma AppendDistinct(es: seq<TreeEntry>, e: TreeEntry)
    requires DistinctPaths(es) && forall x :: x in es ==> x.path != e.path
    ensures DistinctPaths(es + [e])
  {
  }

  lemma FrontApart(es: seq<TreeEntry>)
    requires DistinctPaths(es) && es != []
    ensures DistinctPaths(Front(es)) && forall x :: x in Front(es) ==> x.path != Last(es).path
  {
    forall x | x in Front(es)
      ensures x.path != Last(es).path
    {
      var i :| 0 <= i < |Front(es)| && Front(es)[i] == x;
      assert es[i] == x;
    }
  }

  lemma {:induction false} InsertDistinct(es: seq<TreeEntry>, e: TreeEntry)
    requires DistinctPaths(es) && forall x :: x in es ==> x.path != e.path
    ensures DistinctPaths(Insert(es, e))
  {
    if es == [] || NotAfter(Last(es).path, e.path) {
      AppendDistinct(es, e);
    } else {
      FrontApart(es);
      InsertDistinct(Front(es), e);
      InsertMeaning(Front(es), e);
      AppendDistinct(Insert(Front(es), e), Last(es));
    }
  }

  /** Sorting keeps the entries, and their paths distinct. */
  lemma {:induction false} SortMeaning(es: seq<TreeEntry>)
    ensures Sorted(SortEntries(es))
    ensures forall x :: x in SortEntries(es) <==> x in es
    ensures DistinctPaths(es) ==> DistinctPaths(SortEntries(es))
  {
    if es != [] {
      SortMeaning(Front(es));
      InsertMeaning(SortEntries(Front(es)), Last(es));
      if DistinctPaths(es) {
        FrontApart(es);
        InsertDistinct(SortEntries(Front(es)), Last(es));
      }
    }
  }

  /** Sorting neither makes paths coincide nor tells them apart. */
  lemma SortedDistinct(es: seq<TreeEntry>)
    ensures DistinctPaths(SortEntries(es)) <==> DistinctPaths(es)
  {
    SortMeaning(es);
    SortCopies(es);
    if !DistinctPaths(es) {
      var i, j :| 0 <= i < j < |es| && es[i].path == es[j].path;
      TwoCopies(es, i, j);
      Coinciding(SortEntries(es), es[i], es[j]);
    }
  }

  lemma TwoCopies(es: seq<TreeEntry>, i: nat, j: nat)
    requires i < j < |es|
    ensures multiset(es)[es[i]] >= 1 && multiset(es)[es[j]] >= 1 && (es[i] == es[j] ==> multiset(es)[es[i]] >= 2)
  {
    assert es == es[..i + 1] + es[i + 1..];
    assert es[i] in es[..i + 1] && es[j] == es[i + 1..][j - i - 1];
    assert multiset(es[..i + 1])[es[i]] >= 1 && multiset(es[i + 1..])[es[j]] >= 1;
  }

  /** Two entries with one path, or two copies of an entry, keep paths from being distinct. */
  lemma Coinciding(es: seq<TreeEntry>, e: TreeEntry, f: TreeEntry)
    requires e.path == f.path && multiset(es)[e] >= 1 && multiset(es)[f] >= 1 && (e == f ==> multiset(es)[e] >= 2)
    ensures !DistinctPaths(es)
  {
    assert e in es && f in es;
    var i :| 0 <= i < |es| && es[i] == e;
    var j :| 0 <= j < |es| && es[j] == f;
    if DistinctPaths(es) {
      DistinctCount(es, e);
    }
  }

  lemma {:induction false} InsertCopies(es: seq<TreeEntry>, e: TreeEntry)
    ensures multiset(Insert(es, e)) == multiset(es) + multiset{e}
  {
    if es != [] {
      assert es == Front(es) + [Last(es)];
      InsertCopies(Front(es), e);
    }
  }

  /** Sorting keeps every copy of every entry. */
  lemma {:induction false} SortCopies(es: seq<TreeEntry>)
    ensures multiset(SortEntries(es)) == multiset(es)
  {
    if es != [] {
      assert es == Front(es) + [Last(es)];
      SortCopies(Front(es));
      InsertCopies(SortEntries(Front(es)), Last(es));
    }
  }

  /** The first entry of a path. */
  function Get(es: seq<TreeEntry>, path: string): Option<TreeEntry> {
    if es == [] then None
    else if es[0].path == path then Some(es[0])
    else Get(es[1..], path)
  }

  lemma {:induction false} GetFinds(es: seq<TreeEntry>, path: string)
    ensures Get(es, path).Some? ==> Get(es, path).value in es && Get(es, path).value.path == path
    ensures Get(es, path).None? <==> forall e :: e in es ==> e.path != path
  {
    if es != [] {
      assert es == [es[0]] + es[1..];
      GetFinds(es[1..], path);
    }
  }

  lemma {:induction false} GetConcat(xs: seq<TreeEntry>, ys: seq<TreeEntry>, path: string)
    ensures Get(xs + ys, path) == if Get(xs, path).Some? then Get(xs, path) else Get(ys, path)
  {
    if xs == [] {
      assert xs + ys == ys;
    } else {
      assert (xs + ys)[1..] == xs[1..] + ys;
      GetConcat(xs[1..], ys, path);
    }
  }

  lemma {:induction false} GetOfInsert(es: seq<TreeEntry>, e: TreeEntry, path: string)
    ensures Get(Insert(es, e), path) == Get(es + [e], path)
  {
    if es != [] && !NotAfter(Last(es).path, e.path) {
      PathOrder(e.path, e.path);
      GetOfInsert(Front(es), e, path);
      GetConcat(Insert(Front(es), e), [Last(es)], path);
      GetConcat(Front(es), [Last(es)], path);
      GetConcat(Front(es), [e], path);
      GetConcat(es, [e], path);
    }
  }

  /** A tree returns, for each path, the first of the files given for it. */
  lemma {:induction false} GetOfTree(es: seq<TreeEntry>, path: string)
    ensures Get(SortEntries(es), path) == Get(es, path)
  {
    if es != [] {
      GetOfTree(Front(es), path);
      GetOfInsert(SortEntries(Front(es)), Last(es), path);
      GetConcat(SortEntries(Front(es)), [Last(es)], path);
      GetConcat(Front(es), [Last(es)], path);
    }
  }

  /** Files with the same path are the same. */
  ghost predicate OnePerPath(es: seq<TreeEntry>) {
    forall e, f :: e in es && f in es && e.path == f.path ==> e == f
  }

  /** Sorting has one result for the same files in any order, if files with the same path
      are the same. */
  lemma {:induction false} SortedOnce(xs: seq<TreeEntry>, ys: seq<TreeEntry>)
    requires Sorted(xs) && Sorted(ys) && multiset(xs) == multiset(ys) && OnePerPath(xs)
    ensures xs == ys
    decreases |xs|
  {
    assert |xs| == |multiset(xs)| == |multiset(ys)| == |ys|;
    if xs != [] {
      SameLast(xs, ys);
      FrontCounts(xs);
      FrontCounts(ys);
      FrontOnePerPath(xs);
      SortedOnce(Front(xs), Front(ys));
    }
  }

  lemma SameLast(xs: seq<TreeEntry>, ys: seq<TreeEntry>)
    requires Sorted(xs) && Sorted(ys) && multiset(xs) == multiset(ys) && OnePerPath(xs) && xs != [] && ys != []
    ensures Last(xs) == Last(ys)
  {
    assert Last(xs) in multiset(ys) && Last(ys) in multiset(xs);
    LastIsGreatest(xs, Last(ys));
    LastIsGreatest(ys, Last(xs));
    PathOrder(Last(xs).path, Last(ys).path);
  }

  lemma FrontCounts<T>(xs: seq<T>)
    requires xs != []
    ensures multiset(Front(xs)) == multiset(xs) - multiset{Last(xs)}
  {
    assert xs == Front(xs) + [Last(xs)];
  }

  lemma FrontOnePerPath(xs: seq<TreeEntry>)
    requires OnePerPath(xs) && xs != []
    ensures OnePerPath(Front(xs))
  {
  }

  lemma LastIsGreatest(xs: seq<TreeEntry>, e: TreeEntry)
    requires Sorted(xs) && e in xs
    ensures NotAfter(e.path, Last(xs).path)
  {
    var i :| 0 <= i < |xs| && xs[i] == e;
    PathOrder(e.path, e.path);
  }

  lemma {:induction false} DistinctCount(es: seq<TreeEntry>, e: TreeEntry)
    requires DistinctPaths(es)
    ensures multiset(es)[e] <= 1
  {
    if es != [] {
      assert es == Front(es) + [Last(es)];
      FrontApart(es);
      DistinctCount(Front(es), e);
    }
  }
}
