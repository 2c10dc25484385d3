/** The plugin registry: one list of registered plugins, in registration
    order, and a query that gathers what they contribute at one point of the
    interface. */
module PluginRegistry {

  /** The keys of `Plugin['contributions']`: only file actions exist. */
  datatype ContributionPoint = FileActions

  /** A contributed React component, known here only by its identity. */
  datatype Component = Component(id: string)

  /** A plugin: its name, its version and, per contribution point it uses,
      its components; a point missing from the map is an absent key. */
  datatype Plugin = Plugin(name: string, version: string, contributions: map<ContributionPoint, seq<Component>>)

  /** `p.contributions[point] || []`. */
  function Contributions(p: Plugin, point: ContributionPoint): (cs: seq<Component>)
    ensures point !in p.contributions ==> cs == []
    ensures point in p.contributions ==> cs == p.contributions[point]
  {
    if point in p.contributions then p.contributions[point] else []
  }

  /** `plugins.flatMap(p => p.contributions[point] || [])`. A single
      plugin's query is just its own contributions. */
  function Contributed(plugins: seq<Plugin>, point: ContributionPoint): (cs: seq<Component>)
    ensures |plugins| == 1 ==> cs == Contributions(plugins[0], point)
    decreases |plugins|
  {
    if plugins == [] then []
    else Contributed(plugins[..|plugins| - 1], point) + Contributions(plugins[|plugins| - 1], point)
  }

  /** The number of components the plugins contribute at `point`, plugin
      by plugin. */
  function TotalCount(plugins: seq<Plugin>, point: ContributionPoint): nat
    decreases |plugins|
  {
    if plugins == [] then 0
    else |Contributions(plugins[0], point)| + TotalCount(plugins[1..], point)
  }

  // ---------------------------------------------------------------------
  // properties of the query

  /** The query over two lists of plugins is the query over the first
      followed by the query over the second: registration order is kept. */
  lemma {:induction false} ContributedAppend(ps: seq<Plugin>, qs: seq<Plugin>, point: ContributionPoint)
    ensures Contributed(ps + qs, point) == Contributed(ps, point) + Contributed(qs, point)
    decreases |qs|
  {
    if qs == [] {
      assert ps + qs == ps;
    } else {
      var n := |qs| - 1;
      assert (ps + qs)[..|ps + qs| - 1] == ps + qs[..n];
      ContributedAppend(ps, qs[..n], point);
    }
  }

  /** The list holds each plugin's components one block after another:
      everything from the plugins before plugin `i`, then plugin `i`'s,
      then everything from the plugins after it. */
  lemma ContributedAround(plugins: seq<Plugin>, i: int, point: ContributionPoint)
    requires 0 <= i < |plugins|
    ensures Contributed(plugins, point)
         == Contributed(plugins[..i], point) + Contributions(plugins[i], point)
            + Contributed(plugins[i + 1..], point)
  {
    assert plugins == plugins[..i] + ([plugins[i]] + plugins[i + 1..]);
    ContributedAppend(plugins[..i], [plugins[i]] + plugins[i + 1..], point);
    ContributedAppend([plugins[i]], plugins[i + 1..], point);
    assert Contributed([plugins[i]], point) == Contributions(plugins[i], point) by {
      assert [plugins[i]][..0] == [];
    }
  }

  /** The result is as long as all the contributions together. */
  lemma {:induction false} ContributedLength(plugins: seq<Plugin>, point: ContributionPoint)
    ensures |Contributed(plugins, point)| == TotalCount(plugins, point)
    decreases |plugins|
  {
    if plugins != [] {
      ContributedLength(plugins[1..], point);
      ContributedAround(plugins, 0, point);
      assert plugins[..0] == [];
    }
  }

  /** A component is in the result exactly when some registered plugin
      contributes it at that point. */
  lemma {:induction false} ContributedMembership(plugins: seq<Plugin>, point: ContributionPoint, c: Component)
    ensures c in Contributed(plugins, point) <==>
      exists i :: 0 <= i < |plugins| && c in Contributions(plugins[i], point)
    decreases |plugins|
  {
    if plugins != [] {
      var n := |plugins| - 1;
      var init := plugins[..n];
      ContributedMembership(init, point, c);
      if c in Contributions(plugins[n], point) {
        assert exists i :: 0 <= i < |plugins| && c in Contributions(plugins[i], point);
      }
      if exists i :: 0 <= i < |plugins| && c in Contributions(plugins[i], point) {
        var i :| 0 <= i < |plugins| && c in Contributions(plugins[i], point);
        if i < n {
          assert init[i] == plugins[i];
        }
      }
    }
  }

  /** A plugin without the contribution point adds nothing to the result
      wherever it stands in the list. */
  lemma NoPointNoContribution(ps: seq<Plugin>, p: Plugin, qs: seq<Plugin>, point: ContributionPoint)
    requires point !in p.contributions
    ensures Contributed(ps + [p] + qs, point) == Contributed(ps + qs, point)
  {
    ContributedAppend(ps + [p], qs, point);
    ContributedAppend(ps, qs, point);
    assert (ps + [p])[..|ps|] == ps;
  }

  /** The one plugin of the project, `Console Logger`, contributes one file
      action; registering it on an empty registry makes the query return
      exactly that action. */
  lemma LoggerPluginQuery(logFileAction: Component)
    ensures var logger := Plugin("Console Logger", "1.0.0", map[FileActions := [logFileAction]]);
      Contributed([logger], FileActions) == [logFileAction]
  {
    var logger := Plugin("Console Logger", "1.0.0", map[FileActions := [logFileAction]]);
    assert [logger][..0] == [];
  }

  /** The module-level `plugins` array. */
  class Registry {
    var plugins: seq<Plugin>

    constructor ()
      ensures plugins == []
    {
      plugins := [];
    }

    /** `getPluginsFor`: it reads the list and changes nothing. The result
      holds every registered plugin's contributions, no more. */
    function PluginsFor(point: ContributionPoint): (cs: seq<Component>)
      reads this
      ensures |cs| == TotalCount(plugins, point)
    {
      ContributedLength(plugins, point);
      Contributed(plugins, point)
    }

    /** `registerPlugin`: the plugin goes at the end, even when it is
      already registered, and from then on its components follow everything
      contributed before. */
    method Register(p: Plugin)
      modifies this
      ensures plugins == old(plugins) + [p]
      ensures forall point :: PluginsFor(point) == old(PluginsFor(point)) + Contributions(p, point)
    {
      plugins := plugins + [p];
      assert plugins[..|plugins| - 1] == old(plugins);
    }
  }
}
