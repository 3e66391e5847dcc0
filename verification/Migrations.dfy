/** Planning schema migrations: sorting and checking a list, and overlaying a custom list. */
module Migrations {
  import opened Wrappers

  datatype Migration = Migration(version: int, name: string, sql: string)

  // ---- Sorting ----

  function InsertByVersion(m: Migration, sorted: seq<Migration>): seq<Migration> {
    if sorted == [] || m.version < sorted[0].version then [m] + sorted
    else [sorted[0]] + InsertByVersion(m, sorted[1..])
  }

  /** A stable sort by version. */
  function SortByVersion(ms: seq<Migration>): seq<Migration> {
    if ms == [] then [] else InsertByVersion(ms[|ms| - 1], SortByVersion(ms[..|ms| - 1]))
  }

  predicate Sorted(ms: seq<Migration>) { forall i, j :: 0 <= i < j < |ms| ==> ms[i].version <= ms[j].version }

  predicate StrictlyIncreasing(ms: seq<Migration>) { forall i, j :: 0 <= i < j < |ms| ==> ms[i].version < ms[j].version }

  /** No two migrations of the list have the same version. */
  ghost predicate Distinct(ms: seq<Migration>) { forall i, j :: 0 <= i < j < |ms| ==> ms[i].version != ms[j].version }

  /** The migrations of one version, in order. */
  function OfVersion(ms: seq<Migration>, v: int): seq<Migration> {
    if ms == [] then []
    else if ms[0].version == v then [ms[0]] + OfVersion(ms[1..], v)
    else OfVersion(ms[1..], v)
  }

  lemma {:induction false} OfVersionConcat(a: seq<Migration>, b: seq<Migration>, v: int)
    ensures OfVersion(a + b, v) == OfVersion(a, v) + OfVersion(b, v)
  {
    if a == [] {
      assert a + b == b;
    } else {
      OfVersionConcat(a[1..], b, v);
      assert (a + b)[1..] == a[1..] + b;
    }
  }

  lemma {:induction false} InsertPermutes(m: Migration, sorted: seq<Migration>)
    ensures multiset(InsertByVersion(m, sorted)) == multiset(sorted) + multiset{m}
  {
    if sorted != [] && m.version >= sorted[0].version {
      InsertPermutes(m, sorted[1..]);
      assert sorted == [sorted[0]] + sorted[1..];
    }
  }

  lemma {:induction false} InsertSorts(m: Migration, sorted: seq<Migration>)
    requires Sorted(sorted)
    ensures Sorted(InsertByVersion(m, sorted))
  {
    if sorted != [] && m.version >= sorted[0].version {
      var rest := InsertByVersion(m, sorted[1..]);
      InsertSorts(m, sorted[1..]);
      InsertPermutes(m, sorted[1..]);
      forall i | 0 <= i < |rest| ensures sorted[0].version <= rest[i].version {
        assert rest[i] in multiset(rest);
        assert rest[i] in sorted[1..] || rest[i] == m;
      }
    }
  }

  lemma {:induction false} InsertIsStable(m: Migration, sorted: seq<Migration>, v: int)
    requires Sorted(sorted)
    ensures OfVersion(InsertByVersion(m, sorted), v) == OfVersion(sorted, v) + OfVersion([m], v)
  {
    if sorted != [] && m.version >= sorted[0].version {
      InsertIsStable(m, sorted[1..], v);
      assert InsertByVersion(m, sorted)[1..] == InsertByVersion(m, sorted[1..]);
    } else {
      if m.version == v { SmallerVersions(sorted, v); }
      OfVersionConcat([m], sorted, v);
    }
  }

  lemma {:induction false} SmallerVersions(ms: seq<Migration>, v: int)
    ensures (forall m :: m in ms ==> m.version != v) ==> OfVersion(ms, v) == []
  {
    if ms != [] { SmallerVersions(ms[1..], v); }
  }

  /** Sorting gives an ordered permutation that keeps migrations of the same version in order. */
  lemma {:induction false} SortSorts(ms: seq<Migration>, v: int)
    ensures Sorted(SortByVersion(ms))
    ensures multiset(SortByVersion(ms)) == multiset(ms)
    ensures OfVersion(SortByVersion(ms), v) == OfVersion(ms, v)
  {
    if ms != [] {
      var n := |ms| - 1;
      SortSorts(ms[..n], v);
      InsertSorts(ms[n], SortByVersion(ms[..n]));
      InsertPermutes(ms[n], SortByVersion(ms[..n]));
      InsertIsStable(ms[n], SortByVersion(ms[..n]), v);
      assert ms == ms[..n] + [ms[n]];
      OfVersionConcat(ms[..n], [ms[n]], v);
    }
  }

  lemma {:induction false} OfVersionCounts(ms: seq<Migration>, i: nat, j: nat)
    requires i < j < |ms| && ms[i].version == ms[j].version
    ensures |OfVersion(ms, ms[i].version)| >= 2
  {
    var v := ms[i].version;
    assert ms == ms[..j] + ms[j..];
    OfVersionConcat(ms[..j], ms[j..], v);
    assert ms[..j] == ms[..i] + ms[..j][i..];
    OfVersionConcat(ms[..i], ms[..j][i..], v);
  }

  lemma {:induction false} OfVersionAtMostOne(ms: seq<Migration>, v: int)
    requires Distinct(ms)
    ensures |OfVersion(ms, v)| <= 1
  {
    if ms != [] {
      OfVersionAtMostOne(ms[1..], v);
      if ms[0].version == v { SmallerVersions(ms[1..], v); }
    }
  }

  /** The sorted list is strictly increasing if and only if the original versions are distinct. */
  lemma {:induction false} SortedStrictIff(ms: seq<Migration>)
    ensures StrictlyIncreasing(SortByVersion(ms)) <==> Distinct(ms)
  {
    var sorted := SortByVersion(ms);
    SortSorts(ms, 0);
    if StrictlyIncreasing(sorted) && !Distinct(ms) {
      var i, j :| 0 <= i < j < |ms| && ms[i].version == ms[j].version;
      OfVersionCounts(ms, i, j);
      SortSorts(ms, ms[i].version);
      assert Distinct(sorted);
      OfVersionAtMostOne(sorted, ms[i].version);
    }
    if Distinct(ms) && !StrictlyIncreasing(sorted) {
      var i, j :| 0 <= i < j < |sorted| && sorted[i].version >= sorted[j].version;
      OfVersionCounts(sorted, i, j);
      SortSorts(ms, sorted[i].version);
      OfVersionAtMostOne(ms, sorted[i].version);
    }
  }

  /** Compare each migration with the next. */
  method CheckVersions(ms: array<Migration>) returns (ok: bool)
    ensures ok <==> StrictlyIncreasing(ms[..])
  {
    var i := 1;
    while i < ms.Length
      invariant i >= 1
      invariant forall j, k :: 0 <= j < k < i && k < ms.Length ==> ms[j].version < ms[k].version
    {
      if ms[i].version <= ms[i - 1].version {
        assert ms[..][i - 1].version >= ms[..][i].version;
        return false;
      }
      assert forall j :: 0 <= j < i ==> ms[j].version <= ms[i - 1].version;
      i := i + 1;
    }
    ok := true;
  }

  lemma {:induction false} SortKeepsLength(ms: seq<Migration>)
    ensures |SortByVersion(ms)| == |ms|
  {
    SortSorts(ms, 0);
    assert |multiset(SortByVersion(ms))| == |multiset(ms)|;
  }

  /** Sort in place and check that no version repeats. */
  method ValidateMigrations(ms: array<Migration>) returns (ok: bool)
    modifies ms
    ensures ms[..] == SortByVersion(old(ms[..]))
    ensures ok <==> Distinct(old(ms[..]))
  {
    ghost var before := ms[..];
    var sorted := SortByVersion(ms[..]);
    SortKeepsLength(before);
    forall i | 0 <= i < ms.Length { ms[i] := sorted[i]; }
    assert ms[..] == sorted;
    SortedStrictIff(before);
    ok := CheckVersions(ms);
  }

  // ---- Merging ----

  /** Merge two sorted lists by version, preferring the custom migration where both have one. */
  function AddCustomMigrations(default: seq<Migration>, custom: seq<Migration>): seq<Migration>
    decreases |default| + |custom|
  {
    if default == [] then custom
    else if custom == [] then default
    else if default[0].version < custom[0].version then [default[0]] + AddCustomMigrations(default[1..], custom)
    else if custom[0].version < default[0].version then [custom[0]] + AddCustomMigrations(default, custom[1..])
    else [custom[0]] + AddCustomMigrations(default[1..], custom[1..])
  }

  ghost predicate HasVersion(ms: seq<Migration>, v: int) { exists m :: m in ms && m.version == v }

  /** What the merged list should hold: all of the custom migrations and those default ones whose version
      no custom migration has. */
  ghost predicate Overlays(merged: seq<Migration>, default: seq<Migration>, custom: seq<Migration>) {
    forall m :: m in merged <==> m in custom || (m in default && !HasVersion(custom, m.version))
  }

  lemma VersionsBelow(ms: seq<Migration>, m: Migration)
    requires StrictlyIncreasing(ms) && ms != [] && m in ms[1..]
    ensures ms[0].version < m.version && m in ms
  {
    var i :| 0 <= i < |ms| - 1 && ms[1..][i] == m;
    assert ms[i + 1] == m;
  }

  /** Merging two validated lists gives a strictly increasing list that holds every custom migration,
      exactly the default migrations not replaced, and nothing else. */
  lemma {:induction false} MergeOverlays(default: seq<Migration>, custom: seq<Migration>)
    requires StrictlyIncreasing(default) && StrictlyIncreasing(custom)
    ensures StrictlyIncreasing(AddCustomMigrations(default, custom))
    ensures Overlays(AddCustomMigrations(default, custom), default, custom)
    decreases |default| + |custom|
  {
    if default != [] && custom != [] {
      var d, c := default[0], custom[0];
      assert default == [d] + default[1..] && custom == [c] + custom[1..];
      forall m | m in default[1..] ensures d.version < m.version { VersionsBelow(default, m); }
      forall m | m in custom[1..] ensures c.version < m.version { VersionsBelow(custom, m); }
      if d.version < c.version {
        MergeOverlays(default[1..], custom);
        PrependStrict(d, AddCustomMigrations(default[1..], custom));
      } else if c.version < d.version {
        MergeOverlays(default, custom[1..]);
        PrependStrict(c, AddCustomMigrations(default, custom[1..]));
      } else {
        MergeOverlays(default[1..], custom[1..]);
        PrependStrict(c, AddCustomMigrations(default[1..], custom[1..]));
      }
    }
  }

  lemma PrependStrict(m: Migration, ms: seq<Migration>)
    requires StrictlyIncreasing(ms) && forall x :: x in ms ==> m.version < x.version
    ensures StrictlyIncreasing([m] + ms)
  {
  }

  /** The versions of the merged list are the union of the two lists' versions. */
  lemma {:induction false} MergedVersions(default: seq<Migration>, custom: seq<Migration>, v: int)
    requires StrictlyIncreasing(default) && StrictlyIncreasing(custom)
    ensures HasVersion(AddCustomMigrations(default, custom), v) <==> HasVersion(default, v) || HasVersion(custom, v)
  {
    MergeOverlays(default, custom);
  }
}
