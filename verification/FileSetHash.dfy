/** The byte stream hashed for a file set, and the oscillation check over the hashes. */
module FileSetHash {
  import opened Utf8Cut

  type Files = map<Bytes, Bytes>

  // ---- the order slices.Sorted uses ----

  predicate Less(a: Bytes, b: Bytes)
    decreases |a|
  {
    b != [] && (a == [] || a[0] < b[0] || (a[0] == b[0] && Less(a[1..], b[1..])))
  }

  lemma {:induction false} LessIsStrict(a: Bytes, b: Bytes)
    ensures !(Less(a, b) && Less(b, a)) && !Less(a, a)
    decreases |a|
  {
    if a != [] && b != [] {
      LessIsStrict(a[1..], b[1..]);
      LessIsStrict(a[1..], a[1..]);
    } else if a != [] {
      LessIsStrict(a[1..], a[1..]);
    }
  }

  /** Up to n the texts agree, and there a ends or holds the smaller byte. */
  ghost predicate FirstDiffers(a: Bytes, b: Bytes, n: nat) {
    n <= |a| && n < |b| && a[..n] == b[..n] && (n == |a| || a[n] < b[n])
  }

  lemma AgreesFirst(a: Bytes, b: Bytes, n: nat)
    requires FirstDiffers(a, b, n)
    ensures n == 0 || (a != [] && a[0] == b[0])
  {
    if n > 0 {
      assert a[..n][0] == a[0] && b[..n][0] == b[0];
    }
  }

  lemma {:induction false} LessIff(a: Bytes, b: Bytes)
    ensures Less(a, b) <==> exists n: nat :: FirstDiffers(a, b, n)
    decreases |a|
  {
    if a == [] || b == [] || a[0] != b[0] {
      assert a[..0] == [] && b[..0] == [];
      assert Less(a, b) ==> FirstDiffers(a, b, 0);
      if n: nat :| FirstDiffers(a, b, n) {
        AgreesFirst(a, b, n);
      }
    } else {
      LessIff(a[1..], b[1..]);
      if n: nat :| FirstDiffers(a[1..], b[1..], n) {
        assert a[..n + 1] == [a[0]] + a[1..][..n] && b[..n + 1] == [b[0]] + b[1..][..n];
        assert FirstDiffers(a, b, n + 1);
      }
      if n: nat :| FirstDiffers(a, b, n) {
        assert n > 0;
        assert a[..n][1..] == a[1..][..n - 1] && b[..n][1..] == b[1..][..n - 1];
        assert FirstDiffers(a[1..], b[1..], n - 1);
      }
    }
  }

  /** Exactly the keys, strictly increasing. */
  ghost predicate SortedKeys(paths: seq<Bytes>, keys: set<Bytes>) {
    && (forall p :: p in paths <==> p in keys)
    && forall i, j :: 0 <= i < j < |paths| ==> Less(paths[i], paths[j])
  }

  lemma EmptyListing(paths: seq<Bytes>, keys: set<Bytes>)
    requires SortedKeys(paths, keys)
    ensures paths == [] <==> keys == {}
  {
    assert paths != [] ==> paths[0] in paths;
    assert forall p :: p in keys ==> p in paths;
  }

  lemma {:induction false} SortedKeysUnique(a: seq<Bytes>, b: seq<Bytes>, keys: set<Bytes>)
    requires SortedKeys(a, keys) && SortedKeys(b, keys)
    ensures a == b
    decreases |a|
  {
    if a == [] {
      EmptyListing(a, keys);
      EmptyListing(b, keys);
    } else {
      assert a[0] in keys && a[0] in b;
      SameFirst(a, b, keys);
      SortedTail(a, keys);
      SortedTail(b, keys);
      SortedKeysUnique(a[1..], b[1..], keys - {a[0]});
    }
  }

  lemma SameFirst(a: seq<Bytes>, b: seq<Bytes>, keys: set<Bytes>)
    requires a != [] && b != [] && SortedKeys(a, keys) && SortedKeys(b, keys)
    ensures a[0] == b[0]
  {
    assert a[0] in keys && b[0] in keys;
    assert a[0] in b && b[0] in a;
    var j :| 0 <= j < |b| && b[j] == a[0];
    var i :| 0 <= i < |a| && a[i] == b[0];
    LessIsStrict(a[0], b[0]);
  }

  lemma SortedTail(a: seq<Bytes>, keys: set<Bytes>)
    requires a != [] && SortedKeys(a, keys)
    ensures SortedKeys(a[1..], keys - {a[0]})
  {
    LessIsStrict(a[0], a[0]);
    assert forall i :: 1 <= i < |a| ==> a[i] != a[0];
    assert a == [a[0]] + a[1..];
  }

  // ---- the stream ----

  const PATH_END: byte := 0
  const ENTRY_END: byte := 1

  function Entry(path: Bytes, content: Bytes): Bytes {
    path + [PATH_END] + content + [ENTRY_END]
  }

  /** Reading a Go map: the zero value for an absent key. */
  function Content(files: Files, path: Bytes): Bytes {
    if path in files then files[path] else []
  }

  function Stream(paths: seq<Bytes>, files: Files): Bytes
    decreases |paths|
  {
    if paths == [] then [] else Entry(paths[0], Content(files, paths[0])) + Stream(paths[1..], files)
  }

  /** One file's writes into the hash. */
  method WriteEntry(stream: Bytes, path: Bytes, content: Bytes) returns (stream': Bytes)
    ensures stream' == stream + Entry(path, content)
  {
    stream' := stream + path;
    stream' := stream' + [PATH_END];
    stream' := stream' + content;
    stream' := stream' + [ENTRY_END];
  }

  lemma StreamStep(before: Bytes, paths: seq<Bytes>, files: Files, i: nat)
    requires i < |paths|
    ensures before + Stream(paths[i..], files) ==
        before + Entry(paths[i], Content(files, paths[i])) + Stream(paths[i + 1..], files)
  {
    assert paths[i..][0] == paths[i] && paths[i..][1..] == paths[i + 1..];
  }

  /** The bytes hashed; paths is what sorting the keys returned. */
  method HashedStream(files: Files, paths: seq<Bytes>) returns (stream: Bytes)
    requires SortedKeys(paths, files.Keys)
    ensures stream == Stream(paths, files)
  {
    stream := [];
    for i := 0 to |paths|
      invariant stream + Stream(paths[i..], files) == Stream(paths, files)
    {
      StreamStep(stream, paths, files, i);
      stream := WriteEntry(stream, paths[i], Content(files, paths[i]));
    }
  }

  /** A path, a zero byte, its content, a one byte; and so on for the paths after it. */
  lemma {:induction false} StreamIs(paths: seq<Bytes>, files: Files, k: nat)
    requires k < |paths| && forall p :: p in paths ==> p in files
    ensures Stream(paths, files) ==
        Stream(paths[..k], files) + (paths[k] + [0] + files[paths[k]] + [1]) + Stream(paths[k + 1..], files)
    decreases |paths|
  {
    assert paths[k] in paths;
    if k > 0 {
      var rest := paths[1..];
      StreamIs(rest, files, k - 1);
      assert paths[..k][1..] == rest[..k - 1] && paths[..k][0] == paths[0];
      assert rest[k..] == paths[k + 1..];
      Regroup(Entry(paths[0], Content(files, paths[0])), Stream(rest[..k - 1], files),
              paths[k] + [0] + files[paths[k]] + [1], Stream(paths[k + 1..], files));
    } else {
      assert paths[..0] == [] && paths[0 + 1..] == paths[1..];
    }
  }

  lemma Regroup(a: Bytes, b: Bytes, c: Bytes, d: Bytes)
    ensures a + (b + c + d) == (a + b) + c + d
  {
  }

  /** No path holds the byte that ends paths, no content the byte that ends entries. */
  predicate Unambiguous(files: Files) {
    forall p :: p in files ==> PATH_END !in p && ENTRY_END !in files[p]
  }

  /** Two texts cut at the first end byte agree on both sides of it. */
  lemma {:induction false} CutAtMark(a: Bytes, x: Bytes, b: Bytes, y: Bytes, mark: byte)
    requires mark !in a && mark !in b && a + [mark] + x == b + [mark] + y
    ensures a == b && x == y
    decreases |a|
  {
    var s, t := a + [mark] + x, b + [mark] + y;
    assert s[0] == if a == [] then mark else a[0];
    assert t[0] == if b == [] then mark else b[0];
    assert (a != [] ==> a[0] in a) && (b != [] ==> b[0] in b);
    assert a == [] <==> b == [];
    if a == [] {
      assert s[1..] == x && t[1..] == y;
    } else {
      assert s[1..] == a[1..] + [mark] + x && t[1..] == b[1..] + [mark] + y;
      CutAtMark(a[1..], x, b[1..], y, mark);
      assert a == [a[0]] + a[1..] && b == [b[0]] + b[1..];
    }
  }

  lemma CutEntry(p: Bytes, c: Bytes, x: Bytes, q: Bytes, d: Bytes, y: Bytes)
    requires PATH_END !in p && PATH_END !in q && ENTRY_END !in c && ENTRY_END !in d
    requires Entry(p, c) + x == Entry(q, d) + y
    ensures p == q && c == d && x == y
  {
    assert Entry(p, c) + x == p + [PATH_END] + (c + [ENTRY_END] + x);
    assert Entry(q, d) + y == q + [PATH_END] + (d + [ENTRY_END] + y);
    CutAtMark(p, c + [ENTRY_END] + x, q, d + [ENTRY_END] + y, PATH_END);
    CutAtMark(c, x, d, y, ENTRY_END);
  }

  lemma NothingStreamed(paths: seq<Bytes>, files: Files)
    ensures Stream(paths, files) == [] <==> paths == []
  {
  }

  lemma {:induction false} StreamInjective(a: seq<Bytes>, f: Files, b: seq<Bytes>, g: Files)
    requires (forall p :: p in a ==> p in f) && (forall p :: p in b ==> p in g)
    requires Unambiguous(f) && Unambiguous(g) && Stream(a, f) == Stream(b, g)
    ensures a == b && forall p :: p in a ==> f[p] == g[p]
    decreases |a|
  {
    NothingStreamed(a, f);
    NothingStreamed(b, g);
    if a != [] {
      CutEntry(a[0], Content(f, a[0]), Stream(a[1..], f), b[0], Content(g, b[0]), Stream(b[1..], g));
      StreamInjective(a[1..], f, b[1..], g);
      assert a == [a[0]] + a[1..] && b == [b[0]] + b[1..];
    }
  }

  /** Unambiguous file sets give the same stream exactly when they are the same. */
  lemma SameStreamIff(a: seq<Bytes>, f: Files, b: seq<Bytes>, g: Files)
    requires SortedKeys(a, f.Keys) && SortedKeys(b, g.Keys) && Unambiguous(f) && Unambiguous(g)
    ensures Stream(a, f) == Stream(b, g) <==> f == g
  {
    if Stream(a, f) == Stream(b, g) {
      StreamInjective(a, f, b, g);
      forall p ensures p in f <==> p in g {
        assert p in f.Keys <==> p in a;
        assert p in g.Keys <==> p in b;
      }
    }
    if f == g {
      SortedKeysUnique(a, b, f.Keys);
    }
  }

  /** Every set of two files has the same stream as a single file whose content holds an entry-ending byte. */
  lemma TwoFilesLookLikeOne(p: Bytes, q: Bytes, x: Bytes, y: Bytes)
    requires Less(p, q)
    ensures var two, one := map[p := x, q := y], map[p := x + [ENTRY_END] + q + [PATH_END] + y];
            && two != one && SortedKeys([p, q], two.Keys) && SortedKeys([p], one.Keys)
            && Stream([p, q], two) == Stream([p], one)
  {
    LessIsStrict(p, q);
    var two, one := map[p := x, q := y], map[p := x + [ENTRY_END] + q + [PATH_END] + y];
    assert q in two && q !in one;
    assert [p, q][1..] == [q] && [q][1..] == [] && [p][1..] == [];
    assert Stream([q], two) == Entry(q, y);
    assert Stream([p, q], two) == Entry(p, x) + Entry(q, y);
    assert Stream([p], one) == Entry(p, one[p]);
  }

  // ---- oscillation ----

  /** The last four hashes alternate between two values, possibly equal ones. */
  predicate DetectOscillation(hashes: seq<Bytes>) {
    var n := |hashes|;
    n >= 4 && hashes[n - 1] == hashes[n - 3] && hashes[n - 2] == hashes[n - 4]
  }

  ghost predicate CollisionFree(digest: Bytes -> Bytes) {
    forall a, b :: digest(a) == digest(b) ==> a == b
  }

  ghost predicate HashOf(h: Bytes, f: Files, digest: Bytes -> Bytes) {
    exists paths :: SortedKeys(paths, f.Keys) && h == digest(Stream(paths, f))
  }

  lemma SameHashIff(h: Bytes, f: Files, k: Bytes, g: Files, digest: Bytes -> Bytes)
    requires CollisionFree(digest) && HashOf(h, f, digest) && HashOf(k, g, digest) && Unambiguous(f) && Unambiguous(g)
    ensures h == k <==> f == g
  {
    var a :| SortedKeys(a, f.Keys) && h == digest(Stream(a, f));
    var b :| SortedKeys(b, g.Keys) && k == digest(Stream(b, g));
    SameStreamIff(a, f, b, g);
  }

  ghost predicate Hashed(history: seq<Files>, hashes: seq<Bytes>, digest: Bytes -> Bytes) {
    && |hashes| == |history|
    && forall i :: 0 <= i < |history| ==> HashOf(hashes[i], history[i], digest) && Unambiguous(history[i])
  }

  lemma SameHashAt(history: seq<Files>, hashes: seq<Bytes>, digest: Bytes -> Bytes, i: nat, j: nat)
    requires CollisionFree(digest) && Hashed(history, hashes, digest) && i < |history| && j < |history|
    ensures hashes[i] == hashes[j] <==> history[i] == history[j]
  {
    SameHashIff(hashes[i], history[i], hashes[j], history[j], digest);
  }

  /** The last four of a history alternate. */
  ghost predicate Alternates(history: seq<Files>) {
    var n := |history|;
    n >= 4 && history[n - 1] == history[n - 3] && history[n - 2] == history[n - 4]
  }

  lemma SamePairs(history: seq<Files>, hashes: seq<Bytes>, digest: Bytes -> Bytes, n: nat)
    requires CollisionFree(digest) && Hashed(history, hashes, digest) && 4 <= n <= |history|
    ensures hashes[n - 1] == hashes[n - 3] <==> history[n - 1] == history[n - 3]
    ensures hashes[n - 2] == hashes[n - 4] <==> history[n - 2] == history[n - 4]
  {
    SameHashAt(history, hashes, digest, n - 1, n - 3);
    SameHashAt(history, hashes, digest, n - 2, n - 4);
  }

  /** With a collision-free digest, oscillation is reported exactly when the last four file sets are A, B, A, B. */
  lemma OscillationIff(history: seq<Files>, hashes: seq<Bytes>, digest: Bytes -> Bytes)
    requires CollisionFree(digest) && Hashed(history, hashes, digest)
    ensures DetectOscillation(hashes) <==> Alternates(history)
  {
    if |history| >= 4 {
      SamePairs(history, hashes, digest, |history|);
    }
  }
}
