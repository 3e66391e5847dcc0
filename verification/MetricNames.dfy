/** Fully qualified metric names: joined with underscores on the way in, split on the way out. */
module MetricNames {

  function Join(segments: seq<string>): string {
    if segments == [] then ""
    else if |segments| == 1 then segments[0]
    else segments[0] + "_" + Join(segments[1..])
  }

  /** The pieces of a string between underscores; never none. */
  function Split(s: string): (pieces: seq<string>)
    ensures pieces != []
  {
    if s == "" then [""]
    else if s[0] == '_' then [""] + Split(s[1..])
    else
      var rest := Split(s[1..]);
      [[s[0]] + rest[0]] + rest[1..]
  }

  /** What a metric is registered under with Prometheus. */
  datatype Opts = Opts(namespace: string, subsystem: string, name: string)

  /** The first segment of the group's path is the namespace, the others joined are the subsystem. */
  function MetricOpts(namespace: seq<string>, name: string): Opts {
    if namespace == [] then Opts("", "", name) else Opts(namespace[0], Join(namespace[1..]), name)
  }

  /** The key a label is registered under. */
  function LabelKey(opts: Opts): seq<string> {
    (if opts.namespace == "" then [] else Split(opts.namespace))
    + (if opts.subsystem == "" then [] else Split(opts.subsystem))
    + [opts.name]
  }

  predicate Clean(s: string) { '_' !in s }

  lemma {:induction false} PiecesClean(s: string)
    ensures forall p :: p in Split(s) ==> Clean(p)
  {
    if s != "" {
      PiecesClean(s[1..]);
      var rest := Split(s[1..]);
      if s[0] != '_' {
        assert Clean(rest[0]);
        assert forall p :: p in rest[1..] ==> p in rest;
      }
    }
  }

  lemma {:induction false} SplitClean(s: string)
    requires Clean(s)
    ensures Split(s) == [s]
  {
    if s != "" {
      SplitClean(s[1..]);
      assert [s[0]] + s[1..] == s;
    }
  }

  lemma {:induction false} SplitSeparated(a: string, b: string)
    requires Clean(a)
    ensures Split(a + "_" + b) == [a] + Split(b)
  {
    if a == "" {
      assert (a + "_" + b)[1..] == b;
    } else {
      SplitSeparated(a[1..], b);
      assert (a + "_" + b)[1..] == a[1..] + "_" + b;
      assert [a[0]] + a[1..] == a;
    }
  }

  /** Joining and splitting gives back the segments if and only if none contains an underscore. */
  lemma {:induction false} SplitJoinIff(segments: seq<string>)
    requires segments != []
    ensures Split(Join(segments)) == segments <==> forall s :: s in segments ==> Clean(s)
  {
    PiecesClean(Join(segments));
    if forall s :: s in segments ==> Clean(s) {
      if |segments| == 1 {
        SplitClean(segments[0]);
      } else {
        SplitJoinIff(segments[1..]);
        SplitSeparated(segments[0], Join(segments[1..]));
      }
    }
  }

  lemma {:induction false} JoinEmptyIff(segments: seq<string>)
    ensures Join(segments) == "" <==> segments == [] || segments == [""]
  {
  }

  /** A path whose labels can be found again. */
  predicate Findable(namespace: seq<string>) {
    && (forall s :: s in namespace ==> Clean(s))
    && (namespace != [] ==> namespace[0] != "")
    && (|namespace| == 2 ==> namespace[1] != "")
  }

  lemma KeyOfCleanPath(namespace: seq<string>, name: string)
    requires namespace != [] && forall s :: s in namespace ==> Clean(s)
    ensures var rest := namespace[1..];
            LabelKey(MetricOpts(namespace, name)) ==
            (if namespace[0] == "" then [] else [namespace[0]])
            + (if rest == [] || rest == [""] then [] else rest) + [name]
  {
    var rest := namespace[1..];
    SplitClean(namespace[0]);
    JoinEmptyIff(rest);
    if rest != [] { SplitJoinIff(rest); }
  }

  lemma KeyPiecesClean(namespace: seq<string>, name: string)
    ensures var key := LabelKey(MetricOpts(namespace, name)); forall p :: p in key[..|key| - 1] ==> Clean(p)
  {
    var opts := MetricOpts(namespace, name);
    PiecesClean(opts.namespace);
    PiecesClean(opts.subsystem);
    var key := LabelKey(opts);
    var front := (if opts.namespace == "" then [] else Split(opts.namespace))
                 + (if opts.subsystem == "" then [] else Split(opts.subsystem));
    assert key[..|key| - 1] == front;
  }

  /** A label is registered under the path of its group followed by its name if and only if the path is
      findable: no segment has an underscore, the first is not empty, and a lone second one is not
      empty. */
  lemma LabelKeyIff(namespace: seq<string>, name: string)
    ensures LabelKey(MetricOpts(namespace, name)) == namespace + [name] <==> Findable(namespace)
  {
    var key := LabelKey(MetricOpts(namespace, name));
    if key == namespace + [name] {
      KeyPiecesClean(namespace, name);
      assert key[..|key| - 1] == namespace;
      if namespace != [] { KeyOfCleanPath(namespace, name); }
    }
    if Findable(namespace) && namespace != [] {
      KeyOfCleanPath(namespace, name);
      assert [namespace[0]] + namespace[1..] == namespace;
    }
  }

  // ---- Looking labels up ----

  /** One label created in the group with this path. */
  datatype Creation<A> = Creation(namespace: seq<string>, name: string, created: A)

  function KeyOf<A>(c: Creation<A>): seq<string> { LabelKey(MetricOpts(c.namespace, c.name)) }

  /** What the registry holds after some creations. */
  function Registered<A>(creations: seq<Creation<A>>): map<seq<string>, A> {
    if creations == [] then map[]
    else
      var last := creations[|creations| - 1];
      Registered(creations[..|creations| - 1])[KeyOf(last) := last.created]
  }

  /** Creation `i` is the last one under this key. */
  ghost predicate IsLast<A>(creations: seq<Creation<A>>, key: seq<string>, i: nat) {
    && i < |creations| && KeyOf(creations[i]) == key
    && forall j :: i < j < |creations| ==> KeyOf(creations[j]) != key
  }

  lemma {:induction false} RegisteredIsLast<A>(creations: seq<Creation<A>>, key: seq<string>)
    ensures key in Registered(creations) ==> exists i: nat :: IsLast(creations, key, i)
    ensures forall i: nat :: IsLast(creations, key, i) ==>
      key in Registered(creations) && Registered(creations)[key] == creations[i].created
  {
    if creations != [] {
      var n := |creations| - 1;
      RegisteredIsLast(creations[..n], key);
      if KeyOf(creations[n]) == key {
        assert IsLast(creations, key, n);
      } else {
        forall i: nat ensures IsLast(creations, key, i) <==> IsLast(creations[..n], key, i) {
          LastInFront(creations, key, i);
        }
      }
    }
  }

  lemma LastInFront<A>(creations: seq<Creation<A>>, key: seq<string>, i: nat)
    requires creations != [] && KeyOf(creations[|creations| - 1]) != key
    ensures IsLast(creations, key, i) <==> IsLast(creations[..|creations| - 1], key, i)
  {
    var front := creations[..|creations| - 1];
    assert forall j :: 0 <= j < |front| ==> creations[j] == front[j];
  }

  /** What has been created under a key has been created last at some point. */
  lemma {:induction false} LastExists<A>(creations: seq<Creation<A>>, key: seq<string>, i: nat)
    requires i < |creations| && KeyOf(creations[i]) == key
    ensures exists k: nat :: IsLast(creations, key, k)
  {
    var n := |creations| - 1;
    if KeyOf(creations[n]) == key {
      assert IsLast(creations, key, n);
    } else {
      LastExists(creations[..n], key, i);
      var k: nat :| IsLast(creations[..n], key, k);
      LastInFront(creations, key, k);
    }
  }

  lemma SameKeyIff<A>(a: Creation<A>, b: Creation<A>)
    requires Findable(a.namespace) && Findable(b.namespace)
    ensures KeyOf(a) == KeyOf(b) <==> a.namespace == b.namespace && a.name == b.name
  {
    LabelKeyIff(a.namespace, a.name);
    LabelKeyIff(b.namespace, b.name);
    var p, q := a.namespace + [a.name], b.namespace + [b.name];
    if p == q {
      assert p[..|p| - 1] == a.namespace && q[..|q| - 1] == b.namespace;
    }
  }

  /** A label created in a group whose path is findable is what a lookup by that path and name gives, until
      another label is registered under the same key; among groups with findable paths that is exactly a
      creation with the same path and name. */
  lemma StaysFoundIff<A>(creations: seq<Creation<A>>, i: nat)
    requires i < |creations| && Findable(creations[i].namespace)
    ensures var c := creations[i];
            IsLast(creations, c.namespace + [c.name], i)
            <==> forall j :: i < j < |creations| ==>
                   if Findable(creations[j].namespace)
                   then (creations[j].namespace, creations[j].name) != (c.namespace, c.name)
                   else KeyOf(creations[j]) != c.namespace + [c.name]
  {
    var c := creations[i];
    LabelKeyIff(c.namespace, c.name);
    forall j | i < j < |creations| && Findable(creations[j].namespace)
      ensures KeyOf(creations[j]) == KeyOf(c) <==> (creations[j].namespace, creations[j].name) == (c.namespace, c.name)
    {
      SameKeyIff(creations[j], c);
    }
  }
}
