/** Trimming the files selected from an exemplar repository to a token budget. */
module TokenBudget {
  import opened Utf8Cut

  datatype Role = Marker | Readme | Dockerfile | Entrypoint | Handler | Model | Source

  datatype SelectedFile = SelectedFile(path: string, content: Bytes, role: Role)

  const TOKEN_BUDGET := 20_000

  function EstimateTokens(content: Bytes): nat {
    |content| / 4
  }

  function TotalTokens(files: seq<SelectedFile>): nat {
    if files == [] then 0 else EstimateTokens(files[0].content) + TotalTokens(files[1..])
  }

  function Sources(files: seq<SelectedFile>): nat {
    if files == [] then 0 else (if files[0].role == Source then 1 else 0) + Sources(files[1..])
  }

  /** All role files and the first k source files, in the original order. */
  function WithSources(files: seq<SelectedFile>, k: nat): seq<SelectedFile>
    decreases |files|
  {
    if files == [] then []
    else if files[0].role != Source then [files[0]] + WithSources(files[1..], k)
    else if k > 0 then [files[0]] + WithSources(files[1..], k - 1)
    else WithSources(files[1..], 0)
  }

  function Without(files: seq<SelectedFile>, role: Role): seq<SelectedFile> {
    if files == [] then []
    else (if files[0].role != role then [files[0]] else []) + Without(files[1..], role)
  }

  predicate Fits(files: seq<SelectedFile>) {
    TotalTokens(files) <= TOKEN_BUDGET
  }

  /** small arises from big by leaving files out. */
  predicate Subsequence(small: seq<SelectedFile>, big: seq<SelectedFile>)
    decreases |big|
  {
    small == []
    || (big != [] && ((small[0] == big[0] && Subsequence(small[1..], big[1..])) || Subsequence(small, big[1..])))
  }

  // ---- the loops ----

  method CountTokens(files: seq<SelectedFile>) returns (total: nat)
    ensures total == TotalTokens(files)
  {
    total := 0;
    for i := 0 to |files|
      invariant total + TotalTokens(files[i..]) == TotalTokens(files)
    {
      assert files[i..][0] == files[i] && files[i..][1..] == files[i + 1..];
      total := total + EstimateTokens(files[i].content);
    }
  }

  method RemoveRole(files: seq<SelectedFile>, role: Role) returns (result: seq<SelectedFile>)
    ensures result == Without(files, role)
  {
    result := [];
    for i := 0 to |files|
      invariant result + Without(files[i..], role) == Without(files, role)
    {
      assert files[i..][0] == files[i] && files[i..][1..] == files[i + 1..];
      if files[i].role != role {
        result := result + [files[i]];
      }
    }
  }

  /** The last source file, looked for from the end; |files| if there is none. */
  method LastSource(files: seq<SelectedFile>) returns (idx: nat)
    ensures idx <= |files|
    ensures idx < |files| ==> files[idx].role == Source
    ensures forall i :: 0 <= i < |files| && (i > idx || idx == |files|) ==> files[i].role != Source
  {
    var i: nat := |files|;
    while i > 0
      invariant i <= |files| && forall j :: i <= j < |files| ==> files[j].role != Source
    {
      i := i - 1;
      if files[i].role == Source {
        return i;
      }
    }
    idx := |files|;
  }

  lemma {:induction false} NoSources(files: seq<SelectedFile>)
    requires forall i :: 0 <= i < |files| ==> files[i].role != Source
    ensures Sources(files) == 0
  {
    if files != [] { NoSources(files[1..]); }
  }

  lemma {:induction false} SomeSource(files: seq<SelectedFile>, i: nat)
    requires i < |files| && files[i].role == Source
    ensures Sources(files) > 0
  {
    if i > 0 { SomeSource(files[1..], i - 1); }
  }

  lemma {:induction false} KeepAll(files: seq<SelectedFile>, k: nat)
    requires Sources(files) <= k
    ensures WithSources(files, k) == files
  {
    if files != [] { KeepAll(files[1..], if files[0].role == Source then k - 1 else k); }
  }

  /** Removing the last source file keeps one source file fewer. */
  lemma {:induction false} DropLast(files: seq<SelectedFile>, idx: nat)
    requires idx < |files| && files[idx].role == Source
    requires forall i :: idx < i < |files| ==> files[i].role != Source
    ensures Sources(files) > 0
    ensures files[..idx] + files[idx + 1..] == WithSources(files, Sources(files) - 1)
    decreases |files|
  {
    SomeSource(files, idx);
    if idx == 0 {
      NoSources(files[1..]);
      KeepAll(files[1..], 0);
    } else {
      DropLast(files[1..], idx - 1);
      assert files[..idx] + files[idx + 1..] == [files[0]] + (files[1..][..idx - 1] + files[1..][idx..]);
    }
  }

  lemma {:induction false} KeepTwice(files: seq<SelectedFile>, k: nat, j: nat)
    requires j <= k <= Sources(files)
    ensures Sources(WithSources(files, k)) == k
    ensures WithSources(WithSources(files, k), j) == WithSources(files, j)
  {
    if files != [] {
      if files[0].role != Source {
        KeepTwice(files[1..], k, j);
      } else if k > 0 {
        KeepTwice(files[1..], k - 1, if j > 0 then j - 1 else 0);
      } else {
        ZeroSources(files[1..]);
      }
    }
  }

  lemma {:induction false} ZeroSources(files: seq<SelectedFile>)
    ensures Sources(WithSources(files, 0)) == 0 && WithSources(WithSources(files, 0), 0) == WithSources(files, 0)
  {
    if files != [] { ZeroSources(files[1..]); }
  }

  /** The most source files, up to k, that fit beside all role files, or none if not even that fits. */
  ghost function MostSources(files: seq<SelectedFile>, k: nat): (r: nat)
    ensures r <= k && (r == 0 || Fits(WithSources(files, r)))
    ensures forall j :: r < j <= k ==> !Fits(WithSources(files, j))
  {
    if k == 0 || Fits(WithSources(files, k)) then k else MostSources(files, k - 1)
  }

  /** All role files and as many source files as fit. */
  ghost function Trimmed(files: seq<SelectedFile>): seq<SelectedFile> {
    WithSources(files, MostSources(files, Sources(files)))
  }

  method DropLastSource(files: seq<SelectedFile>) returns (dropped: bool, smaller: seq<SelectedFile>)
    ensures dropped <==> Sources(files) > 0
    ensures dropped ==> smaller == WithSources(files, Sources(files) - 1)
  {
    var idx := LastSource(files);
    if idx == |files| {
      NoSources(files);
      return false, files;
    }
    DropLast(files, idx);
    dropped, smaller := true, files[..idx] + files[idx + 1..];
  }

  method TrimSources(files: seq<SelectedFile>) returns (result: seq<SelectedFile>)
    ensures result == Trimmed(files)
  {
    result := files;
    ghost var k: nat := Sources(files);
    KeepAll(files, k);
    var total := CountTokens(result);
    while total > TOKEN_BUDGET
      invariant k <= Sources(files) && result == WithSources(files, k) && total == TotalTokens(result)
      invariant MostSources(files, k) == MostSources(files, Sources(files))
      decreases k
    {
      KeepTwice(files, k, k);
      var dropped, smaller := DropLastSource(result);
      if !dropped {
        break;
      }
      KeepTwice(files, k, k - 1);
      result := smaller;
      k := k - 1;
      total := CountTokens(result);
    }
  }

  const DROP_ORDER: seq<Role> := [Model, Handler, Readme]

  /** Dropping the roles of the order one at a time while over budget. */
  function DropRoles(files: seq<SelectedFile>, order: seq<Role>): seq<SelectedFile>
    decreases |order|
  {
    if order == [] || Fits(files) then files else DropRoles(Without(files, order[0]), order[1..])
  }

  ghost function Enforced(files: seq<SelectedFile>): seq<SelectedFile> {
    DropRoles(Trimmed(files), DROP_ORDER)
  }

  method EnforceTokenBudget(files: seq<SelectedFile>) returns (result: seq<SelectedFile>)
    ensures result == Enforced(files)
  {
    result := TrimSources(files);
    for i := 0 to |DROP_ORDER|
      invariant DropRoles(result, DROP_ORDER[i..]) == Enforced(files)
    {
      assert DROP_ORDER[i..][0] == DROP_ORDER[i] && DROP_ORDER[i..][1..] == DROP_ORDER[i + 1..];
      var total := CountTokens(result);
      if total <= TOKEN_BUDGET {
        return;
      }
      result := RemoveRole(result, DROP_ORDER[i]);
    }
    assert DROP_ORDER[|DROP_ORDER|..] == [];
  }

  // ---- what is returned ----

  lemma {:induction false} WithSourcesIsSubsequence(files: seq<SelectedFile>, k: nat)
    ensures Subsequence(WithSources(files, k), files)
    decreases |files|
  {
    if files != [] {
      WithSourcesIsSubsequence(files[1..], if files[0].role == Source && k > 0 then k - 1 else k);
      if files[0].role != Source || k > 0 {
        assert WithSources(files, k)[1..] == WithSources(files[1..], if files[0].role == Source then k - 1 else k);
      }
    }
  }

  lemma {:induction false} WithoutIsSubsequence(files: seq<SelectedFile>, role: Role)
    ensures Subsequence(Without(files, role), files)
  {
    if files != [] {
      WithoutIsSubsequence(files[1..], role);
      if files[0].role != role {
        assert Without(files, role)[1..] == Without(files[1..], role);
      } else {
        assert Without(files, role) == Without(files[1..], role);
      }
    }
  }

  lemma {:induction false} SubsequenceTransitive(a: seq<SelectedFile>, b: seq<SelectedFile>, c: seq<SelectedFile>)
    requires Subsequence(a, b) && Subsequence(b, c)
    ensures Subsequence(a, c)
    decreases |c|
  {
    if a != [] {
      if b[0] == c[0] && Subsequence(b[1..], c[1..]) {
        if a[0] == b[0] && Subsequence(a[1..], b[1..]) {
          SubsequenceTransitive(a[1..], b[1..], c[1..]);
        } else {
          SubsequenceTransitive(a, b[1..], c[1..]);
        }
      } else {
        SubsequenceTransitive(a, b, c[1..]);
      }
    }
  }

  lemma {:induction false} DropRolesIsSubsequence(files: seq<SelectedFile>, order: seq<Role>)
    ensures Subsequence(DropRoles(files, order), files)
    decreases |order|
  {
    if order != [] && !Fits(files) {
      WithoutIsSubsequence(files, order[0]);
      DropRolesIsSubsequence(Without(files, order[0]), order[1..]);
      SubsequenceTransitive(DropRoles(files, order), Without(files, order[0]), files);
    } else {
      Reflexive(files);
    }
  }

  lemma {:induction false} Reflexive(files: seq<SelectedFile>)
    ensures Subsequence(files, files)
  {
    if files != [] { Reflexive(files[1..]); }
  }

  lemma {:induction false} WithoutLeavesNone(files: seq<SelectedFile>, role: Role)
    ensures forall f :: f in Without(files, role) <==> f in files && f.role != role
  {
    if files != [] {
      WithoutLeavesNone(files[1..], role);
      assert files == [files[0]] + files[1..];
    }
  }

  /** Either the result fits, or every role of the order is gone from it. */
  lemma {:induction false} FitsOrDropped(files: seq<SelectedFile>, order: seq<Role>)
    ensures var r := DropRoles(files, order);
            Fits(r) || forall f :: f in r <==> f in files && f.role !in order
    decreases |order|
  {
    if order != [] && !Fits(files) {
      WithoutLeavesNone(files, order[0]);
      FitsOrDropped(Without(files, order[0]), order[1..]);
      assert order == [order[0]] + order[1..];
    }
  }

  lemma {:induction false} NoSourceLeft(files: seq<SelectedFile>)
    requires Sources(files) == 0
    ensures forall f :: f in files ==> f.role != Source
  {
    if files != [] {
      NoSourceLeft(files[1..]);
      assert files == [files[0]] + files[1..];
    }
  }

  /** The result keeps the original order; over budget, only markers, a Dockerfile and an entry point remain. */
  lemma BudgetKept(files: seq<SelectedFile>)
    ensures Subsequence(Enforced(files), files)
    ensures Fits(Enforced(files)) || forall f :: f in Enforced(files) ==> f.role in {Marker, Dockerfile, Entrypoint}
  {
    var k, kept := MostSources(files, Sources(files)), Trimmed(files);
    WithSourcesIsSubsequence(files, k);
    DropRolesIsSubsequence(kept, DROP_ORDER);
    SubsequenceTransitive(Enforced(files), kept, files);
    FitsOrDropped(kept, DROP_ORDER);
    if k == 0 {
      ZeroSources(files);
      NoSourceLeft(kept);
    }
  }

  /** A role of the order that occurs goes entirely exactly when what is left without those before it is over budget. */
  lemma {:induction false} DroppedIff(files: seq<SelectedFile>, order: seq<Role>, i: nat)
    requires i < |order| && forall a, b :: 0 <= a < b < |order| ==> order[a] != order[b]
    requires exists f :: f in files && f.role == order[i]
    ensures (forall f :: f in DropRoles(files, order) ==> f.role != order[i]) <==> !Fits(WithoutAll(files, order[..i]))
    decreases |order|
  {
    if Fits(files) {
      WithoutMoreFits(files, order[..i]);
    } else {
      WithoutLeavesNone(files, order[0]);
      if i > 0 {
        assert order[..i][1..] == order[1..][..i - 1];
        DroppedIff(Without(files, order[0]), order[1..], i - 1);
      } else {
        DropRolesIsSubset(Without(files, order[0]), order[1..]);
      }
    }
  }

  function WithoutAll(files: seq<SelectedFile>, roles: seq<Role>): seq<SelectedFile>
    decreases |roles|
  {
    if roles == [] then files else WithoutAll(Without(files, roles[0]), roles[1..])
  }

  lemma {:induction false} WithoutFits(files: seq<SelectedFile>, role: Role)
    ensures TotalTokens(Without(files, role)) <= TotalTokens(files)
  {
    if files != [] {
      WithoutFits(files[1..], role);
      if files[0].role == role {
        assert Without(files, role) == Without(files[1..], role);
      } else {
        assert Without(files, role)[1..] == Without(files[1..], role);
      }
    }
  }

  lemma {:induction false} WithoutMoreFits(files: seq<SelectedFile>, roles: seq<Role>)
    requires Fits(files)
    ensures Fits(WithoutAll(files, roles))
    decreases |roles|
  {
    if roles != [] {
      WithoutFits(files, roles[0]);
      WithoutMoreFits(Without(files, roles[0]), roles[1..]);
    }
  }

  lemma {:induction false} DropRolesIsSubset(files: seq<SelectedFile>, order: seq<Role>)
    ensures forall f :: f in DropRoles(files, order) ==> f in files
    decreases |order|
  {
    if order != [] && !Fits(files) {
      WithoutLeavesNone(files, order[0]);
      DropRolesIsSubset(Without(files, order[0]), order[1..]);
    }
  }

  /**
   A source file is left out only beyond the longest fitting prefix. Model, handler and readme files go in that order,
   each exactly when what is left without those that went before is still over budget; so none goes while a source
   stays.
   */
  lemma DropsInOrder(files: seq<SelectedFile>, i: nat)
    requires i < 3 && exists f :: f in Trimmed(files) && f.role == [Model, Handler, Readme][i]
    ensures (forall f :: f in Enforced(files) ==> f.role != [Model, Handler, Readme][i]) <==>
        !Fits(WithoutAll(Trimmed(files), [Model, Handler, Readme][..i]))
    ensures MostSources(files, Sources(files)) > 0 ==> Enforced(files) == Trimmed(files)
  {
    DroppedIff(Trimmed(files), DROP_ORDER, i);
  }

  function ByteCount(files: seq<SelectedFile>): nat {
    if files == [] then 0 else |files[0].content| + ByteCount(files[1..])
  }

  /** A token stands for four bytes of one file, an incomplete one not counting. */
  lemma {:induction false} TokensAreFours(files: seq<SelectedFile>)
    ensures 4 * TotalTokens(files) <= ByteCount(files) <= 4 * TotalTokens(files) + 3 * |files|
  {
    if files != [] {
      TokensAreFours(files[1..]);
    }
  }

  /** So up to 80000 bytes fit in any number of files, and a single file of up to 80003. */
  lemma FitsInBytes(files: seq<SelectedFile>)
    ensures ByteCount(files) <= 80_003 ==> Fits(files)
    ensures |files| == 1 ==> (Fits(files) <==> |files[0].content| <= 80_003)
    ensures ByteCount(files) >= 80_004 + 3 * |files| ==> !Fits(files)
  {
    TokensAreFours(files);
    if |files| == 1 {
      assert files[1..] == [];
    }
  }

  /** Keeping fewer source files never costs more, so every smaller prefix of the sources fits too. */
  lemma {:induction false} FewerSourcesFit(files: seq<SelectedFile>, j: nat, k: nat)
    requires j <= k
    ensures TotalTokens(WithSources(files, j)) <= TotalTokens(WithSources(files, k))
    decreases |files|
  {
    if files != [] {
      if files[0].role != Source {
        FewerSourcesFit(files[1..], j, k);
      } else {
        FewerSourcesFit(files[1..], if j > 0 then j - 1 else 0, if k > 0 then k - 1 else 0);
      }
    }
  }
}
