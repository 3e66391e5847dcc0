/** Merging API extensions into an API specification. */
module TomlMerge {
  import opened Wrappers

  /** A TOML value: a table, or anything else. */
  datatype Value = Scalar(text: string) | Table(entries: map<string, Value>)

  /** Tables merge entry by entry; anything else that is already there stays. */
  function Merge(into: Value, from: Value): Value
    decreases from
  {
    if into.Table? && from.Table? then
      Table(map k | k in into.entries.Keys + from.entries.Keys ::
              if k !in from.entries then into.entries[k]
              else if k !in into.entries then from.entries[k]
              else Merge(into.entries[k], from.entries[k]))
    else into
  }

  /** Merge in place, one entry of `from` after another, in any order. */
  method MergeToml(into: Value, from: Value) returns (merged: Value)
    ensures merged == Merge(into, from)
    decreases from
  {
    merged := into;
    if into.Table? && from.Table? {
      var keys := from.entries.Keys;
      while keys != {}
        invariant keys <= from.entries.Keys
        invariant merged.Table? && merged.entries.Keys == into.entries.Keys + (from.entries.Keys - keys)
        invariant forall k :: k in merged.entries ==>
          merged.entries[k] == if k in from.entries && k !in keys then Merge(into, from).entries[k] else into.entries[k]
        decreases keys
      {
        var key :| key in keys;
        if key in merged.entries {
          var entry := MergeToml(merged.entries[key], from.entries[key]);
          merged := Table(merged.entries[key := entry]);
        } else {
          merged := Table(merged.entries[key := from.entries[key]]);
        }
        keys := keys - {key};
      }
    }
  }

  // ---- Looking up paths ----

  /** The value at a path of keys, if the path leads anywhere. */
  function Lookup(v: Value, path: seq<string>): Option<Value>
    decreases |path|
  {
    if path == [] then Some(v)
    else if v.Table? && path[0] in v.entries then Lookup(v.entries[path[0]], path[1..])
    else None
  }

  /** The path leaves the value at a table that lacks the next key: nothing on the way blocks it. */
  predicate Open(v: Value, path: seq<string>)
    decreases |path|
  {
    && path != [] && v.Table?
    && (path[0] in v.entries ==> Open(v.entries[path[0]], path[1..]))
  }

  /** Every path after a merge: where both lead somewhere, the merge of the two values; where only the base
      does, its value; where only the extension does, the extension's value, unless something of the
      base that is not a table blocks the path. */
  lemma {:induction false} MergeLookup(into: Value, from: Value, path: seq<string>)
    ensures Lookup(Merge(into, from), path) ==
      match (Lookup(into, path), Lookup(from, path))
      case (Some(a), Some(b)) => Some(Merge(a, b))
      case (Some(a), None) => Some(a)
      case (None, Some(b)) => if Open(into, path) then Some(b) else None
      case (None, None) => None
    decreases |path|
  {
    if path != [] && into.Table? && from.Table? && path[0] in into.entries && path[0] in from.entries {
      MergeLookup(into.entries[path[0]], from.entries[path[0]], path[1..]);
    }
  }

  /** Merging the same extension again changes nothing. */
  lemma {:induction false} MergeIdempotent(into: Value, from: Value)
    ensures Merge(Merge(into, from), from) == Merge(into, from)
    decreases from
  {
    if into.Table? && from.Table? {
      var once := Merge(into, from);
      var twice := Merge(once, from);
      assert twice.entries.Keys == once.entries.Keys;
      forall k | k in once.entries ensures twice.entries[k] == once.entries[k] {
        if k in from.entries {
          if k in into.entries {
            MergeIdempotent(into.entries[k], from.entries[k]);
          } else {
            MergeSelf(from.entries[k]);
          }
        }
      }
    }
  }

  lemma {:induction false} MergeSelf(v: Value)
    ensures Merge(v, v) == v
  {
    if v.Table? {
      forall k | k in v.entries ensures Merge(v, v).entries[k] == v.entries[k] { MergeSelf(v.entries[k]); }
      assert Merge(v, v).entries == v.entries;
    }
  }

  // ---- Extending an API ----

  function MergeAll(base: Value, extensions: seq<Value>): Value
    decreases |extensions|
  {
    if extensions == [] then base else MergeAll(Merge(base, extensions[0]), extensions[1..])
  }

  /** The extension loop of loading an API. */
  method LoadApi(base: Value, extensions: seq<Value>) returns (toml: Value)
    ensures toml == MergeAll(base, extensions)
  {
    toml := base;
    for i := 0 to |extensions|
      invariant MergeAll(base, extensions) == MergeAll(toml, extensions[i..])
    {
      assert extensions[i..][1..] == extensions[i + 1..];
      toml := MergeToml(toml, extensions[i]);
    }
  }

  /** Whatever is not a table stays at its path under any list of extensions, and whatever is a table stays
      a table. */
  lemma {:induction false} ExtensionsKeepBase(base: Value, extensions: seq<Value>, path: seq<string>)
    requires Lookup(base, path).Some?
    ensures Lookup(MergeAll(base, extensions), path).Some?
    ensures Lookup(base, path).value.Scalar? ==> Lookup(MergeAll(base, extensions), path) == Lookup(base, path)
    ensures Lookup(base, path).value.Table? ==> Lookup(MergeAll(base, extensions), path).value.Table?
    decreases |extensions|
  {
    if extensions != [] {
      MergeLookup(base, extensions[0], path);
      ExtensionsKeepBase(Merge(base, extensions[0]), extensions[1..], path);
    }
  }

  /** The path leads somewhere; to `x`, if one is given. */
  predicate Leads(v: Value, path: seq<string>, x: Option<Value>) {
    var found := Lookup(v, path);
    found.Some? && (x.Some? ==> found == x)
  }

  /** A path leads somewhere in the end exactly if it did in the base or some extension adds it: one in which it
      leads somewhere, while the path is open in everything merged before. The same holds of a path that leads
      to a given scalar. */
  lemma {:induction false} ExtensionsAddIff(base: Value, extensions: seq<Value>, path: seq<string>, x: Option<Value>)
    requires x.Some? ==> x.value.Scalar?
    ensures Leads(MergeAll(base, extensions), path, x) <==>
      (Leads(base, path, x)
       || exists i :: 0 <= i < |extensions| && Leads(extensions[i], path, x)
                      && Open(MergeAll(base, extensions[..i]), path))
    decreases |extensions|
  {
    if extensions == [] {
    } else {
      var next := Merge(base, extensions[0]);
      var rest := extensions[1..];
      MergeLookup(base, extensions[0], path);
      OpenHasNothing(base, path);
      ExtensionsAddIff(next, rest, path, x);
      forall i | 0 <= i < |rest| ensures MergeAll(next, rest[..i]) == MergeAll(base, extensions[..i + 1]) {
        assert extensions[..i + 1][0] == extensions[0] && extensions[..i + 1][1..] == rest[..i];
      }
      if i :| 0 <= i < |rest| && Leads(rest[i], path, x) && Open(MergeAll(next, rest[..i]), path) {
        assert Leads(extensions[i + 1], path, x);
      }
      if Leads(extensions[0], path, x) && Open(base, path) {
        assert extensions[..0] == [] && MergeAll(base, extensions[..0]) == base;
      }
      if i :| 0 < i < |extensions| && Leads(extensions[i], path, x) && Open(MergeAll(base, extensions[..i]), path) {
        assert rest[i - 1] == extensions[i] && MergeAll(next, rest[..i - 1]) == MergeAll(base, extensions[..i]);
      }
      if Leads(next, path, x) && !Leads(base, path, x) {
        assert Open(base, path) && Leads(extensions[0], path, x);
        assert extensions[..0] == [] && MergeAll(base, extensions[..0]) == base;
      }
    }
  }

  lemma {:induction false} OpenHasNothing(v: Value, path: seq<string>)
    ensures Open(v, path) ==> Lookup(v, path).None?
    decreases |path|
  {
    if Open(v, path) && path[0] in v.entries { OpenHasNothing(v.entries[path[0]], path[1..]); }
  }
}
