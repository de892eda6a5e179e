/** The cached files a pass of the size cap counts, and the oldest-first order it evicts them in. */
module ArtworkOrder {
  import opened ArtworkNames

  /** `inode` stands for the file behind the name: two names of one inode are one file. */
  datatype CacheFile = CacheFile(path: string, kind: Kind, size: nat, mod: int, inode: int)

  predicate SameFile(a: CacheFile, b: CacheFile) { a.inode == b.inode }

  /** Two names of one file report one size. */
  ghost predicate LinksAgree(files: seq<CacheFile>) {
    forall f, g :: f in files && g in files && SameFile(f, g) ==> f.size == g.size
  }

  /** A walk lists each path once. */
  ghost predicate DistinctPaths(files: seq<CacheFile>) {
    forall i, j :: 0 <= i < j < |files| ==> files[i].path != files[j].path
  }

  function Bytes(files: seq<CacheFile>): nat {
    if files == [] then 0 else files[0].size + Bytes(files[1..])
  }

  /** The files whose path is in `paths`, in order. */
  function Restrict(files: seq<CacheFile>, paths: set<string>): seq<CacheFile> {
    if files == [] then []
    else if files[0].path in paths then [files[0]] + Restrict(files[1..], paths)
    else Restrict(files[1..], paths)
  }

  lemma {:induction false} RestrictMember(files: seq<CacheFile>, paths: set<string>, f: CacheFile)
    ensures f in Restrict(files, paths) <==> f in files && f.path in paths
  {
    if files == [] {
    } else {
      RestrictMember(files[1..], paths, f);
      assert f in files <==> f == files[0] || f in files[1..];
    }
  }

  lemma {:induction false} RestrictAppend(a: seq<CacheFile>, b: seq<CacheFile>, paths: set<string>)
    ensures Restrict(a + b, paths) == Restrict(a, paths) + Restrict(b, paths)
  {
    if a == [] {
      assert a + b == b;
    } else {
      assert (a + b)[1..] == a[1..] + b;
      RestrictAppend(a[1..], b, paths);
    }
  }

  lemma {:induction false} RestrictDistinct(files: seq<CacheFile>, paths: set<string>)
    requires DistinctPaths(files)
    ensures DistinctPaths(Restrict(files, paths))
  {
    if files == [] {
    } else {
      RestrictDistinct(files[1..], paths);
      forall f | f in Restrict(files[1..], paths) ensures f in files[1..] { RestrictMember(files[1..], paths, f); }
      assert forall f :: f in files[1..] ==> f.path != files[0].path;
    }
  }

  lemma {:induction false} BytesAppend(a: seq<CacheFile>, b: seq<CacheFile>)
    ensures Bytes(a + b) == Bytes(a) + Bytes(b)
  {
    if a == [] {
      assert a + b == b;
    } else {
      assert (a + b)[1..] == a[1..] + b;
      BytesAppend(a[1..], b);
    }
  }

  /** What a view of part of the cache counts, and what it hides, make up the whole. */
  lemma {:induction false} BytesSplit(files: seq<CacheFile>, paths: set<string>)
    ensures Bytes(files) == Bytes(Restrict(files, paths)) + HiddenBytes(files, paths)
  {
    if files == [] {
    } else {
      BytesSplit(files[1..], paths);
    }
  }

  function HiddenBytes(files: seq<CacheFile>, paths: set<string>): nat {
    if files == [] then 0
    else (if files[0].path in paths then 0 else files[0].size) + HiddenBytes(files[1..], paths)
  }

  // ----- the order -----

  predicate PathLess(a: string, b: string) {
    b != [] && (a == [] || a[0] < b[0] || (a[0] == b[0] && PathLess(a[1..], b[1..])))
  }

  predicate Older(a: CacheFile, b: CacheFile) {
    a.mod < b.mod || (a.mod == b.mod && PathLess(a.path, b.path))
  }

  ghost predicate OldestFirst(files: seq<CacheFile>) {
    forall i, j :: 0 <= i < j < |files| ==> Older(files[i], files[j])
  }

  lemma {:induction false} PathLessTotal(a: string, b: string)
    ensures PathLess(a, b) || PathLess(b, a) || a == b
    ensures !(PathLess(a, b) && PathLess(b, a))
    ensures PathLess(a, b) ==> a != b
  {
    if a != [] && b != [] && a[0] == b[0] {
      PathLessTotal(a[1..], b[1..]);
      assert a == [a[0]] + a[1..] && b == [b[0]] + b[1..];
    }
  }

  lemma {:induction false} PathLessTransitive(a: string, b: string, c: string)
    requires PathLess(a, b) && PathLess(b, c)
    ensures PathLess(a, c)
  {
    if a != [] && a[0] == b[0] && b[0] == c[0] { PathLessTransitive(a[1..], b[1..], c[1..]); }
  }

  /** Where the two first differ, `a` has ended or has the lower character. */
  predicate PartsAt(a: string, b: string, k: int) {
    0 <= k <= |a| && k < |b| && a[..k] == b[..k] && (k == |a| || a[k] < b[k])
  }

  lemma {:induction false} PathLessMeans(a: string, b: string)
    ensures PathLess(a, b) <==> exists k :: PartsAt(a, b, k)
  {
    if b == [] {
    } else if a == [] || a[0] != b[0] {
      assert a[..0] == b[..0];
      if PathLess(a, b) { assert PartsAt(a, b, 0); }
      if k :| PartsAt(a, b, k) {
        if k > 0 { assert a[..k][0] == b[..k][0]; }
      }
    } else {
      PathLessMeans(a[1..], b[1..]);
      if k :| PartsAt(a[1..], b[1..], k) {
        assert a[..k + 1] == [a[0]] + a[1..][..k] && b[..k + 1] == [b[0]] + b[1..][..k];
        assert PartsAt(a, b, k + 1);
      }
      if k :| PartsAt(a, b, k) {
        assert k > 0;
        assert a[1..][..k - 1] == a[..k][1..] && b[1..][..k - 1] == b[..k][1..];
        assert PartsAt(a[1..], b[1..], k - 1);
      }
    }
  }

  lemma OlderTransitive(a: CacheFile, b: CacheFile, c: CacheFile)
    requires Older(a, b) && Older(b, c)
    ensures Older(a, c)
  {
    if a.mod == b.mod == c.mod { PathLessTransitive(a.path, b.path, c.path); }
  }

  function Insert(f: CacheFile, sorted: seq<CacheFile>): seq<CacheFile> {
    if sorted == [] || Older(f, sorted[0]) then [f] + sorted
    else [sorted[0]] + Insert(f, sorted[1..])
  }

  /** The library sort the pass calls, as the value it must return. */
  function SortOldestFirst(files: seq<CacheFile>): seq<CacheFile> {
    if files == [] then [] else Insert(files[0], SortOldestFirst(files[1..]))
  }

  lemma {:induction false} InsertKeeps(f: CacheFile, sorted: seq<CacheFile>)
    ensures multiset(Insert(f, sorted)) == multiset(sorted) + multiset{f}
  {
    if sorted == [] || Older(f, sorted[0]) {
    } else {
      InsertKeeps(f, sorted[1..]);
      assert sorted == [sorted[0]] + sorted[1..];
    }
  }

  lemma {:induction false} InsertSorts(f: CacheFile, sorted: seq<CacheFile>)
    requires OldestFirst(sorted)
    requires forall g :: g in sorted ==> g.path != f.path
    ensures OldestFirst(Insert(f, sorted))
  {
    if sorted == [] {
    } else if Older(f, sorted[0]) {
      forall j | 1 <= j < |sorted| ensures Older(f, sorted[j]) { OlderTransitive(f, sorted[0], sorted[j]); }
    } else {
      PathLessTotal(f.path, sorted[0].path);
      InsertSorts(f, sorted[1..]);
      InsertKeeps(f, sorted[1..]);
      var rest := Insert(f, sorted[1..]);
      forall g | g in rest ensures Older(sorted[0], g) {
        assert g in multiset(rest);
        assert g == f || g in sorted[1..];
      }
    }
  }

  lemma {:induction false} SortKeeps(files: seq<CacheFile>)
    ensures multiset(SortOldestFirst(files)) == multiset(files)
  {
    if files == [] {
    } else {
      SortKeeps(files[1..]);
      InsertKeeps(files[0], SortOldestFirst(files[1..]));
      assert files == [files[0]] + files[1..];
    }
  }

  lemma SortMembers(files: seq<CacheFile>, f: CacheFile)
    ensures f in SortOldestFirst(files) <==> f in files
  {
    SortKeeps(files);
    assert f in multiset(SortOldestFirst(files)) <==> f in multiset(files);
  }

  lemma {:induction false} SortSorts(files: seq<CacheFile>)
    requires DistinctPaths(files)
    ensures OldestFirst(SortOldestFirst(files))
  {
    if files == [] {
    } else {
      var f, rest := files[0], SortOldestFirst(files[1..]);
      SortSorts(files[1..]);
      forall g | g in rest ensures g.path != f.path { SortMembers(files[1..], g); }
      InsertSorts(f, rest);
    }
  }

  /** The sort loses and invents no file, and orders files of distinct paths strictly. */
  lemma SortCorrect(files: seq<CacheFile>)
    ensures multiset(SortOldestFirst(files)) == multiset(files)
    ensures forall f :: f in SortOldestFirst(files) <==> f in files
    ensures DistinctPaths(files) ==> OldestFirst(SortOldestFirst(files))
  {
    SortKeeps(files);
    forall f ensures f in SortOldestFirst(files) <==> f in files { SortMembers(files, f); }
    if DistinctPaths(files) { SortSorts(files); }
  }

  /** By time, and by path where the times are the same. */
  lemma SortedByTime(files: seq<CacheFile>)
    requires DistinctPaths(files)
    ensures var s := SortOldestFirst(files);
            && multiset(s) == multiset(files)
            && forall i, j :: 0 <= i < j < |s| ==>
                 s[i].mod < s[j].mod || (s[i].mod == s[j].mod && exists k :: PartsAt(s[i].path, s[j].path, k))
  {
    SortCorrect(files);
    var s := SortOldestFirst(files);
    forall i, j | 0 <= i < j < |s|
      ensures s[i].mod < s[j].mod || (s[i].mod == s[j].mod && exists k :: PartsAt(s[i].path, s[j].path, k))
    {
      assert Older(s[i], s[j]);
      PathLessMeans(s[i].path, s[j].path);
    }
  }

  lemma {:induction false} RestrictSorted(files: seq<CacheFile>, paths: set<string>)
    requires OldestFirst(files)
    ensures OldestFirst(Restrict(files, paths))
  {
    if files == [] {
    } else {
      RestrictSorted(files[1..], paths);
      forall f | f in Restrict(files[1..], paths) ensures Older(files[0], f) {
        RestrictMember(files[1..], paths, f);
      }
    }
  }

  lemma OlderIrreflexive(a: CacheFile, b: CacheFile)
    ensures !(Older(a, b) && Older(b, a))
  {
    PathLessTotal(a.path, b.path);
  }

  /** There is one way to list a set of files oldest first. */
  lemma {:induction false} OldestFirstUnique(a: seq<CacheFile>, b: seq<CacheFile>)
    requires OldestFirst(a) && OldestFirst(b)
    requires forall f :: f in a <==> f in b
    ensures a == b
  {
    assert b != [] ==> b[0] in a;
    if a == [] {
    } else {
      assert a[0] in b && b != [];
      assert b[0] in a;
      OlderIrreflexive(a[0], b[0]);
      assert a[0] == b[0];
      forall f ensures f in a[1..] <==> f in b[1..] {
        OlderIrreflexive(f, a[0]);
        assert f in a[1..] ==> Older(a[0], f);
        assert f in b[1..] ==> Older(b[0], f);
        assert f in a <==> f == a[0] || f in a[1..];
        assert f in b <==> f == b[0] || f in b[1..];
      }
      OldestFirstUnique(a[1..], b[1..]);
      assert a == [a[0]] + a[1..] && b == [b[0]] + b[1..];
    }
  }

  /** Sorting a part of the files and taking that part of the sorted files agree. */
  lemma SortRestrict(files: seq<CacheFile>, paths: set<string>)
    requires DistinctPaths(files)
    ensures SortOldestFirst(Restrict(files, paths)) == Restrict(SortOldestFirst(files), paths)
  {
    RestrictDistinct(files, paths);
    SortCorrect(files);
    SortCorrect(Restrict(files, paths));
    RestrictSorted(SortOldestFirst(files), paths);
    forall f ensures f in SortOldestFirst(Restrict(files, paths)) <==> f in Restrict(SortOldestFirst(files), paths) {
      RestrictMember(files, paths, f);
      RestrictMember(SortOldestFirst(files), paths, f);
    }
    OldestFirstUnique(SortOldestFirst(Restrict(files, paths)), Restrict(SortOldestFirst(files), paths));
  }
}
