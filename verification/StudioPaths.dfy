/** The order in which the catalog walk visits source-relative paths
    (internal/reaper/studio_files.go, compareStudioPath). */
module StudioPaths {
  import opened Text

  /** Element by element; a path comes before everything inside it. */
  function CompareParts(a: seq<string>, b: seq<string>): (order: int)
    ensures -1 <= order <= 1
  {
    if a == [] then (if b == [] then 0 else -1)
    else if b == [] then 1
    else if a[0] == b[0] then CompareParts(a[1..], b[1..])
    else if Less(a[0], b[0]) then -1
    else 1
  }

  function ComparePaths(a: string, b: string): (order: int)
    ensures -1 <= order <= 1
  {
    CompareParts(Split(a, '/'), Split(b, '/'))
  }

  /** compareStudioPath itself: split once, then look for the first element that differs. */
  method CompareStudioPath(a: string, b: string) returns (order: int)
    ensures order == ComparePaths(a, b)
  {
    var left, right := Split(a, '/'), Split(b, '/');
    var i := 0;
    assert left[0..] == left && right[0..] == right;
    while i < |left| && i < |right|
      invariant 0 <= i <= |left| && i <= |right|
      invariant CompareParts(left, right) == CompareParts(left[i..], right[i..])
    {
      assert left[i..][1..] == left[i + 1..] && right[i..][1..] == right[i + 1..];
      if left[i] != right[i] {
        if Less(left[i], right[i]) {
          return -1;
        }
        return 1;
      }
      i := i + 1;
    }
    if |left| < |right| {
      return -1;
    } else if |left| > |right| {
      return 1;
    }
    return 0;
  }

  /** Where two lists of elements part, the smaller element or the shorter list comes first. */
  ghost predicate PartsBefore(a: seq<string>, b: seq<string>, k: nat) {
    k <= |a| && k < |b| && a[..k] == b[..k] && (k == |a| || Less(a[k], b[k]))
  }

  lemma PartsInside(a: seq<string>, b: seq<string>, k: nat)
    requires a != [] && b != [] && a[0] == b[0]
    ensures PartsBefore(a, b, k + 1) <==> PartsBefore(a[1..], b[1..], k)
  {
    if k < |a| && k + 1 < |b| {
      assert a[..k + 1] == [a[0]] + a[1..][..k] && b[..k + 1] == [b[0]] + b[1..][..k];
    }
  }

  lemma {:induction false} PartsMean(a: seq<string>, b: seq<string>)
    ensures CompareParts(a, b) < 0 <==> exists k: nat :: PartsBefore(a, b, k)
  {
    if a == [] || b == [] || a[0] != b[0] {
      if CompareParts(a, b) < 0 {
        assert PartsBefore(a, b, 0);
      }
    } else {
      PartsMean(a[1..], b[1..]);
      if CompareParts(a, b) < 0 {
        var k: nat :| PartsBefore(a[1..], b[1..], k);
        PartsInside(a, b, k);
      }
      if k: nat :| PartsBefore(a, b, k) {
        LessTotal(a[0], b[0]);
        PartsInside(a, b, k - 1);
      }
    }
  }

  /** A path is before another when, where their elements part, it has the smaller element or has ended. */
  lemma OrderMeans(a: string, b: string, left: seq<string>, right: seq<string>)
    requires left == Split(a, '/') && right == Split(b, '/')
    ensures ComparePaths(a, b) < 0 <==> exists k: nat :: PartsBefore(left, right, k)
  {
    PartsMean(left, right);
  }

  /* ---- A strict total order ---- */

  lemma {:induction false} PartsOrder(a: seq<string>, b: seq<string>)
    ensures CompareParts(a, b) == 0 <==> a == b
    ensures CompareParts(a, b) == -CompareParts(b, a)
  {
    if a != [] && b != [] {
      LessTotal(a[0], b[0]);
      if a[0] == b[0] {
        PartsOrder(a[1..], b[1..]);
        assert a == [a[0]] + a[1..] && b == [b[0]] + b[1..];
      }
    }
  }

  lemma {:induction false} PartsTransitive(a: seq<string>, b: seq<string>, c: seq<string>)
    requires CompareParts(a, b) < 0 && CompareParts(b, c) < 0
    ensures CompareParts(a, c) < 0
  {
    if a != [] {
      if a[0] == b[0] && b[0] == c[0] {
        PartsTransitive(a[1..], b[1..], c[1..]);
      } else if a[0] != b[0] && b[0] != c[0] {
        LessTransitive(a[0], b[0], c[0]);
        LessTotal(a[0], c[0]);
      }
    }
  }

  /** 0 only on equal paths, and reversing the arguments reverses the sign. */
  lemma PathOrder(a: string, b: string)
    ensures ComparePaths(a, b) == 0 <==> a == b
    ensures ComparePaths(a, b) == -ComparePaths(b, a)
  {
    PartsOrder(Split(a, '/'), Split(b, '/'));
    if ComparePaths(a, b) == 0 {
      SplitInjective(a, b, '/');
    }
  }

  lemma PathTransitive(a: string, b: string, c: string)
    requires ComparePaths(a, b) < 0 && ComparePaths(b, c) < 0
    ensures ComparePaths(a, c) < 0
  {
    PartsTransitive(Split(a, '/'), Split(b, '/'), Split(c, '/'));
  }

  /* ---- Paths inside one folder ---- */

  /** The prefix of a folder's items: empty at the root, otherwise ending in a slash. */
  predicate FolderPrefix(prefix: string)
  {
    prefix == "" || prefix[|prefix| - 1] == '/'
  }

  /** One path element, as a directory listing gives it. */
  predicate PlainName(name: string)
  {
    name != "" && '/' !in name
  }

  predicate Inside(path: string, folder: string)
  {
    HasPrefix(path, folder + "/")
  }

  /** A path that is `base` or lies inside it. */
  predicate Under(path: string, base: string)
  {
    path == base || Inside(path, base)
  }

  lemma {:induction false} CommonParts(p: seq<string>, a: seq<string>, b: seq<string>)
    ensures CompareParts(p + a, p + b) == CompareParts(a, b)
  {
    if p == [] {
      assert p + a == a && p + b == b;
    } else {
      CommonParts(p[1..], a, b);
      assert (p + a)[1..] == p[1..] + a && (p + b)[1..] == p[1..] + b;
    }
  }

  lemma CommonPrefix(prefix: string, a: string, b: string)
    requires FolderPrefix(prefix)
    ensures ComparePaths(prefix + a, prefix + b) == ComparePaths(a, b)
  {
    if prefix == "" {
      assert prefix + a == a && prefix + b == b;
    } else {
      var folder := prefix[..|prefix| - 1];
      assert prefix == folder + ['/'];
      SplitAt(folder, '/', a);
      SplitAt(folder, '/', b);
      CommonParts(Split(folder, '/'), Split(a, '/'), Split(b, '/'));
    }
  }

  /** The path elements of a path under a plain name start with that name. */
  lemma UnderParts(path: string, name: string)
    requires PlainName(name) && Under(path, name)
    ensures Split(path, '/')[0] == name
    ensures path == name <==> Split(path, '/') == [name]
  {
    SplitPlain(name, '/');
    if path != name {
      var inner := path[|name| + 1..];
      assert path == name + ['/'] + inner;
      SplitAt(name, '/', inner);
    }
  }

  /** Everything under the earlier of two siblings comes before everything under the later. */
  lemma SiblingsApart(prefix: string, a: string, b: string, left: string, right: string)
    requires FolderPrefix(prefix) && PlainName(a) && PlainName(b) && Less(a, b)
    requires Under(left, prefix + a) && Under(right, prefix + b)
    ensures ComparePaths(left, right) < 0
    ensures !Under(left, prefix + b) && !Under(right, prefix + a)
  {
    var l, r := left[|prefix|..], right[|prefix|..];
    InFolder(prefix, a, left);
    InFolder(prefix, b, right);
    UnderParts(l, a);
    UnderParts(r, b);
    CommonPrefix(prefix, l, r);
    LessTotal(a, b);
    if Under(left, prefix + b) {
      InFolder(prefix, b, left);
      UnderParts(l, b);
    }
    if Under(right, prefix + a) {
      InFolder(prefix, a, right);
      UnderParts(r, a);
    }
  }

  lemma InFolder(prefix: string, name: string, path: string)
    requires Under(path, prefix + name)
    ensures |prefix| <= |path| && path == prefix + path[|prefix|..]
    ensures Under(path[|prefix|..], name)
  {
    if path != prefix + name {
      assert path[..|prefix| + |name| + 1] == prefix + (name + "/");
      assert path[|prefix|..][..|name| + 1] == path[..|prefix| + |name| + 1][|prefix|..];
    }
  }

  /** A folder comes before everything inside it. */
  lemma FolderFirst(folder: string, path: string)
    requires Inside(path, folder)
    ensures ComparePaths(folder, path) < 0
  {
    var inner := path[|folder| + 1..];
    assert path == folder + ['/'] + inner;
    SplitAt(folder, '/', inner);
    var parts := Split(folder, '/');
    CommonParts(parts, [], Split(inner, '/'));
    assert parts + [] == parts;
  }

}
