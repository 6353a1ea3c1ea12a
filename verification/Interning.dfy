/**
 Content-addressed ids. A digest is a free constructor over what it hashes, so two digests are equal exactly
 when the hashed values are.
 */
module Interning {

  datatype ContentId = ContentId(text: string)

  datatype FileInfo = FileInfo(path: string, content: ContentId, role: string, language: string)

  datatype TreeDigest = TreeDigest(canonical: seq<FileInfo>)

  /** The order of strings by code point. */
  predicate Before(a: string, b: string) {
    b != [] && (a == [] || a[0] < b[0] || (a[0] == b[0] && Before(a[1..], b[1..])))
  }

  lemma {:induction false} BeforeIsTotal(a: string, b: string)
    ensures a == b || Before(a, b) || Before(b, a)
  {
    if a != [] && b != [] && a[0] == b[0] {
      BeforeIsTotal(a[1..], b[1..]);
      assert a == [a[0]] + a[1..] && b == [b[0]] + b[1..];
    }
  }

  lemma {:induction false} BeforeIsStrict(a: string, b: string)
    requires Before(a, b)
    ensures a != b && !Before(b, a)
  {
    if a != [] && a[0] == b[0] {
      BeforeIsStrict(a[1..], b[1..]);
    }
  }

  lemma {:induction false} BeforeIsTransitive(a: string, b: string, c: string)
    requires Before(a, b) && Before(b, c)
    ensures Before(a, c)
  {
    if a != [] && a[0] == b[0] == c[0] {
      BeforeIsTransitive(a[1..], b[1..], c[1..]);
    }
  }

  function Elements(files: seq<FileInfo>): set<FileInfo> {
    set f | f in files
  }

  predicate DistinctPaths(files: seq<FileInfo>) {
    forall i, j :: 0 <= i < j < |files| ==> files[i].path != files[j].path
  }

  predicate UniquePaths(files: set<FileInfo>) {
    forall f, g :: f in files && g in files && f.path == g.path ==> f == g
  }

  /** Put a file before the first file that does not come before it. */
  function InsertByPath(file: FileInfo, sorted: seq<FileInfo>): seq<FileInfo> {
    if sorted == [] || !Before(sorted[0].path, file.path) then [file] + sorted
    else [sorted[0]] + InsertByPath(file, sorted[1..])
  }

  function SortByPath(files: seq<FileInfo>): seq<FileInfo> {
    if files == [] then [] else InsertByPath(files[0], SortByPath(files[1..]))
  }

  function ListingHash(files: seq<FileInfo>): TreeDigest {
    TreeDigest(SortByPath(files))
  }

  predicate Ascending(files: seq<FileInfo>) {
    forall i, j :: 0 <= i < j < |files| ==> Before(files[i].path, files[j].path)
  }

  lemma {:induction false} InsertKeepsElements(file: FileInfo, sorted: seq<FileInfo>)
    ensures Elements(InsertByPath(file, sorted)) == Elements(sorted) + {file}
  {
    if sorted != [] && Before(sorted[0].path, file.path) {
      InsertKeepsElements(file, sorted[1..]);
      assert Elements(sorted) == {sorted[0]} + Elements(sorted[1..]);
      var rest := InsertByPath(file, sorted[1..]);
      assert Elements([sorted[0]] + rest) == {sorted[0]} + Elements(rest);
    }
  }

  lemma {:induction false} SortKeepsElements(files: seq<FileInfo>)
    ensures Elements(SortByPath(files)) == Elements(files)
  {
    if files != [] {
      SortKeepsElements(files[1..]);
      InsertKeepsElements(files[0], SortByPath(files[1..]));
      assert Elements(files) == {files[0]} + Elements(files[1..]);
    }
  }

  lemma {:induction false} InsertKeepsAscending(file: FileInfo, sorted: seq<FileInfo>)
    requires Ascending(sorted)
    requires forall f :: f in sorted ==> f.path != file.path
    ensures Ascending(InsertByPath(file, sorted))
  {
    if sorted != [] {
      var first, rest := sorted[0], sorted[1..];
      BeforeIsTotal(first.path, file.path);
      if Before(first.path, file.path) {
        InsertKeepsAscending(file, rest);
        InsertKeepsElements(file, rest);
        var tail := InsertByPath(file, rest);
        forall f | f in tail
          ensures Before(first.path, f.path)
        {
          assert f in Elements(tail);
        }
        AscendingCons(first, tail);
      } else {
        forall f | f in sorted
          ensures Before(file.path, f.path)
        {
          if f != first {
            BeforeIsTransitive(file.path, first.path, f.path);
          }
        }
        AscendingCons(file, sorted);
      }
    }
  }

  lemma AscendingCons(first: FileInfo, rest: seq<FileInfo>)
    requires Ascending(rest) && forall f :: f in rest ==> Before(first.path, f.path)
    ensures Ascending([first] + rest)
  {
    var all := [first] + rest;
    forall i, j | 0 <= i < j < |all|
      ensures Before(all[i].path, all[j].path)
    {
      assert all[j] == rest[j - 1];
    }
  }

  lemma {:induction false} SortAscends(files: seq<FileInfo>)
    requires DistinctPaths(files)
    ensures Ascending(SortByPath(files))
  {
    if files != [] {
      SortAscends(files[1..]);
      SortKeepsElements(files[1..]);
      forall f | f in SortByPath(files[1..])
        ensures f.path != files[0].path
      {
        assert f in Elements(files[1..]);
      }
      InsertKeepsAscending(files[0], SortByPath(files[1..]));
    }
  }

  lemma {:induction false} AscendingIsCanonical(a: seq<FileInfo>, b: seq<FileInfo>)
    requires Ascending(a) && Ascending(b) && Elements(a) == Elements(b)
    ensures a == b
  {
    assert b != [] ==> b[0] in Elements(b);
    if a != [] {
      assert a[0] in Elements(a);
      assert b != [];
      assert b[0] in Elements(b);
      FirstIsLeast(a, b[0]);
      FirstIsLeast(b, a[0]);
      AscendingTail(a);
      AscendingTail(b);
      AscendingIsCanonical(a[1..], b[1..]);
      assert a == [a[0]] + a[1..] && b == [b[0]] + b[1..];
    }
  }

  lemma FirstIsLeast(files: seq<FileInfo>, f: FileInfo)
    requires files != [] && Ascending(files) && f in Elements(files)
    ensures f == files[0] || (Before(files[0].path, f.path) && !Before(f.path, files[0].path))
  {
    if f != files[0] {
      BeforeIsStrict(files[0].path, f.path);
    }
  }

  lemma AscendingTail(files: seq<FileInfo>)
    requires files != [] && Ascending(files)
    ensures Ascending(files[1..])
    ensures Elements(files[1..]) == Elements(files) - {files[0]}
  {
    forall f | f in files[1..]
      ensures f != files[0]
    {
      BeforeIsStrict(files[0].path, f.path);
    }
    assert Elements(files) == {files[0]} + Elements(files[1..]);
  }

  /** Two listings have the same hash exactly when they hold the same files, in any order. */
  lemma SameHashIffSameFiles(a: seq<FileInfo>, b: seq<FileInfo>)
    requires DistinctPaths(a) && DistinctPaths(b)
    ensures ListingHash(a) == ListingHash(b) <==> Elements(a) == Elements(b)
  {
    SortKeepsElements(a);
    SortKeepsElements(b);
    SortAscends(a);
    SortAscends(b);
    if Elements(a) == Elements(b) {
      AscendingIsCanonical(SortByPath(a), SortByPath(b));
    }
  }

  /** Some order of a set of files. */
  ghost function Enumerate(files: set<FileInfo>): (r: seq<FileInfo>)
    ensures Elements(r) == files
    ensures UniquePaths(files) ==> DistinctPaths(r)
  {
    if files == {} then [] else
      var f :| f in files;
      var rest := Enumerate(files - {f});
      assert forall i :: 0 <= i < |rest| ==> rest[i] in Elements(rest);
      assert Elements([f] + rest) == {f} + Elements(rest);
      [f] + rest
  }

  /** The hash of a set of files: that of any listing of it, see `HashOfListing`. */
  ghost function HashOf(files: set<FileInfo>): TreeDigest {
    ListingHash(Enumerate(files))
  }

  lemma HashOfListing(files: seq<FileInfo>)
    requires DistinctPaths(files)
    ensures UniquePaths(Elements(files)) && ListingHash(files) == HashOf(Elements(files))
  {
    assert UniquePaths(Elements(files));
    SameHashIffSameFiles(files, Enumerate(Elements(files)));
  }

  lemma HashIsInjective(a: set<FileInfo>, b: set<FileInfo>)
    requires UniquePaths(a) && UniquePaths(b) && HashOf(a) == HashOf(b)
    ensures a == b
  {
    SameHashIffSameFiles(Enumerate(a), Enumerate(b));
  }
}
