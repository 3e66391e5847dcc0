/** The tree of metric groups, shared by all handles into it, and the registry of labels. */
module Metrics {
  import opened Wrappers
  import opened MetricNames

  class Label {
    var value: string

    constructor ()
      ensures value == ""
    {
      value := "";
    }

    method Set(value: string)
      modifies this
      ensures this.value == value
    {
      this.value := value;
    }
  }

  class Registry {
    var labels: map<seq<string>, Label>
    // Every label ever created, in order.
    ghost var creations: seq<Creation<Label>>

    ghost predicate Valid()
      reads this
    {
      labels == Registered(creations)
    }

    constructor ()
      ensures Valid() && creations == []
    {
      labels, creations := map[], [];
    }
  }

  /** Why a lookup failed: there is no group at this path. */
  datatype MetricsError = NoSuchSubgroup(path: seq<string>)

  class PrometheusMetrics {
    const metrics: Registry
    const namespace: seq<string>
    var children: map<string, PrometheusMetrics>

    constructor (metrics: Registry, namespace: seq<string>)
      ensures this.metrics == metrics && this.namespace == namespace && children == map[]
    {
      this.metrics := metrics;
      this.namespace := namespace;
      children := map[];
    }

    /** The child with this name: the one there is, or a new one one level further down. */
    method Subgroup(name: string, ghost groups: set<PrometheusMetrics>) returns (group: PrometheusMetrics)
      requires IsForest(groups) && this in groups
      modifies this`children
      ensures name in children && children[name] == group
      ensures children == old(children)[name := group]
      ensures if name in old(children) then group == old(children)[name] else fresh(group) && group.children == map[]
      ensures group.namespace == namespace + [name] && group.metrics == metrics
      ensures IsForest(groups + {group})
    {
      if name !in children {
        var child := new PrometheusMetrics(metrics, namespace + [name]);
        children := children[name := child];
      }
      group := children[name];
    }

    /** Walk down the path, stopping at the first segment that is not there. */
    method GetSubgroup(path: seq<string>, ghost groups: set<PrometheusMetrics>)
      returns (r: Result<PrometheusMetrics, MetricsError>)
      requires IsForest(groups) && this in groups
      ensures r.Ok? <==> Reaches(groups, this, path)
      ensures r.Ok? ==> r.value == Walk(groups, this, path) && r.value in groups && r.value.namespace == namespace + path
      ensures r.Err? ==> exists k :: 0 <= k < |path| && Reaches(groups, this, path[..k])
                                     && !Reaches(groups, this, path[..k + 1])
                                     && r.error.path == namespace + path[..k + 1]
    {
      var curr := this;
      WalkPath(groups, this, path);
      for i := 0 to |path|
        invariant curr in groups && curr.namespace == namespace + path[..i]
        invariant Reaches(groups, this, path[..i]) && Walk(groups, this, path[..i]) == curr
        invariant Reaches(groups, this, path) <==> Reaches(groups, curr, path[i..])
        invariant Reaches(groups, this, path) ==> Walk(groups, this, path) == Walk(groups, curr, path[i..])
      {
        WalkSnoc(groups, this, path[..i], path[i]);
        assert path[..i] + [path[i]] == path[..i + 1];
        assert path[i..][1..] == path[i + 1..];
        if path[i] !in curr.children {
          return Err(NoSuchSubgroup(curr.namespace + [path[i]]));
        }
        curr := curr.children[path[i]];
      }
      assert path[..|path|] == path;
      r := Ok(curr);
    }

    /** Create a label in this group: it can then be found here by name if and only if the path of the group
        is findable. */
    method CreateLabel(name: string) returns (found: Label)
      requires metrics.Valid()
      modifies metrics
      ensures metrics.Valid() && metrics.creations == old(metrics.creations) + [Creation(namespace, name, found)]
      ensures fresh(found) && found.value == ""
      ensures (namespace + [name] in metrics.labels && metrics.labels[namespace + [name]] == found)
              <==> Findable(namespace)
    {
      found := new Label();
      LabelKeyIff(namespace, name);
      metrics.creations := metrics.creations + [Creation(namespace, name, found)];
      assert metrics.creations[..|metrics.creations| - 1] == old(metrics.creations);
      metrics.labels := metrics.labels[LabelKey(MetricOpts(namespace, name)) := found];
    }

    /** The label created last under the path of this group and the name, if there is one. */
    method GetLabel(name: string) returns (found: Option<Label>)
      requires metrics.Valid()
      ensures found.None?
              <==> forall i :: 0 <= i < |metrics.creations| ==> KeyOf(metrics.creations[i]) != namespace + [name]
      ensures forall i: nat :: IsLast(metrics.creations, namespace + [name], i) ==>
        found == Some(metrics.creations[i].created)
    {
      var fqName := namespace + [name];
      RegisteredIsLast(metrics.creations, fqName);
      if i :| 0 <= i < |metrics.creations| && KeyOf(metrics.creations[i]) == fqName {
        LastExists(metrics.creations, fqName, i);
      }
      found := if fqName in metrics.labels then Some(metrics.labels[fqName]) else None;
    }
  }

  /** The groups share one registry, contain each other's children, and each child's namespace is its
      parent's with its own name added. */
  ghost predicate IsForest(groups: set<PrometheusMetrics>)
    reads groups
  {
    && (forall g, h :: g in groups && h in groups ==> g.metrics == h.metrics)
    && (forall g, k :: g in groups && k in g.children ==>
          g.children[k] in groups && g.children[k].namespace == g.namespace + [k])
  }

  ghost predicate Reaches(groups: set<PrometheusMetrics>, g: PrometheusMetrics, path: seq<string>)
    requires IsForest(groups) && g in groups
    reads groups
    decreases |path|
  {
    path != [] ==> path[0] in g.children && Reaches(groups, g.children[path[0]], path[1..])
  }

  ghost function Walk(groups: set<PrometheusMetrics>, g: PrometheusMetrics, path: seq<string>): PrometheusMetrics
    requires IsForest(groups) && g in groups && Reaches(groups, g, path)
    reads groups
    decreases |path|
  {
    if path == [] then g else Walk(groups, g.children[path[0]], path[1..])
  }

  /** Every group reached by a path from a group has that group's namespace followed by the path. */
  lemma {:induction false} WalkPath(groups: set<PrometheusMetrics>, g: PrometheusMetrics, path: seq<string>)
    requires IsForest(groups) && g in groups
    ensures Reaches(groups, g, path) ==>
      Walk(groups, g, path) in groups && Walk(groups, g, path).namespace == g.namespace + path
    decreases |path|
  {
    if path != [] && path[0] in g.children {
      WalkPath(groups, g.children[path[0]], path[1..]);
      assert [path[0]] + path[1..] == path;
    }
  }

  lemma {:induction false} WalkSnoc(groups: set<PrometheusMetrics>, g: PrometheusMetrics, path: seq<string>, next: string)
    requires IsForest(groups) && g in groups && Reaches(groups, g, path)
    ensures Walk(groups, g, path) in groups
    ensures Reaches(groups, g, path + [next]) <==> next in Walk(groups, g, path).children
    ensures next in Walk(groups, g, path).children ==>
      Walk(groups, g, path + [next]) == Walk(groups, g, path).children[next]
    decreases |path|
  {
    if path == [] {
      assert path + [next] == [next] && [next][1..] == [];
    } else {
      WalkSnoc(groups, g.children[path[0]], path[1..], next);
      assert (path + [next])[1..] == path[1..] + [next];
    }
  }
}
