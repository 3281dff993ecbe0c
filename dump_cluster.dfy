/**
 * dumpCluster: list the namespaces, then dump either the one named by `--namespace`
 * or every listed namespace that is not being terminated. The program starts one
 * goroutine per namespace; the goroutines share nothing, so here they run one after the
 * other, in list order, and the first failure ends the run as `glog.Fatalf` does.
 */
module Cluster {
  import opened Wrappers
  import opened Kinds
  import opened Dumper

  datatype Phase = Active | Terminating

  /** A listed namespace: its name and `Status.Phase`. */
  datatype Namespace = Namespace(name: string, phase: Phase)

  /** Why the run stops with `glog.Fatalf`. */
  datatype ClusterError = ListFailed(cause: string) | NamespaceFailed(ns: string, error: DumpError)

  /**
   * How a run ends: every selected namespace dumped, or a fatal error together with the
   * dumps written before it.
   */
  datatype ClusterOutcome =
    | Completed(dumps: seq<NamespaceDump>)
    | Fatal(error: ClusterError, written: seq<NamespaceDump>)

  /** Names of the listed namespaces that are not being terminated, in list order. */
  function LiveNames(items: seq<Namespace>): (names: seq<string>)
    ensures |names| <= |items|
    ensures forall n :: n in names <==> exists ns :: ns in items && ns.name == n && ns.phase != Terminating
  {
    if items == [] then []
    else
      var init, last := items[..|items| - 1], items[|items| - 1];
      var rest := LiveNames(init);
      assert forall ns :: ns in items <==> ns in init || ns == last;
      if last.phase == Terminating then rest else rest + [last.name]
  }

  /** The namespaces a run dumps: the named one, or else every live listed one. */
  function Selected(namespace: string, items: seq<Namespace>): (names: seq<string>)
    ensures namespace != "" ==> names == [namespace]
    ensures namespace == "" ==>
      forall n :: n in names <==> exists ns :: ns in items && ns.name == n && ns.phase != Terminating
  {
    if namespace != "" then [namespace] else LiveNames(items)
  }

  /**
   * Dump `names` one after the other, stopping at the first failure: a completed run has
   * one dump per name; a fatal one names the namespace whose dump failed, the one right
   * after those already written.
   */
  function DumpEach(names: seq<string>, output: string, skip: seq<string>, order: seq<string>,
                    query: Request -> QueryResult, write: string -> Option<string>): (r: ClusterOutcome)
    ensures r.Completed? ==> |r.dumps| == |names|
    ensures r.Fatal? ==>
      && r.error.NamespaceFailed? && |r.written| < |names| && r.error.ns == names[|r.written|]
      && DumpNamespaceSpec(r.error.ns, output, skip, order, query, write) == Failure(r.error.error)
  {
    if names == [] then Completed([])
    else
      var ns := names[|names| - 1];
      match DumpEach(names[..|names| - 1], output, skip, order, query, write)
      case Fatal(e, written) => Fatal(e, written)
      case Completed(dumps) =>
        match DumpNamespaceSpec(ns, output, skip, order, query, write)
        case Failure(e) => Fatal(NamespaceFailed(ns, e), dumps)
        case Success(d) => Completed(dumps + [d])
  }

  /** dumpCluster, given the outcome `listed` of `Namespaces().List`. */
  function DumpClusterSpec(listed: Result<seq<Namespace>, string>, output: string, namespace: string,
                           skip: seq<string>, order: seq<string>,
                           query: Request -> QueryResult, write: string -> Option<string>)
    : (r: ClusterOutcome)
  {
    match listed
    case Failure(cause) => Fatal(ListFailed(cause), [])
    case Success(items) => DumpEach(Selected(namespace, items), output, skip, order, query, write)
  }

  /** Once a prefix of the names has failed, the run fails the same way. */
  lemma {:induction false} FatalSticks(names: seq<string>, j: nat, output: string, skip: seq<string>,
                                       order: seq<string>, query: Request -> QueryResult,
                                       write: string -> Option<string>)
    requires j <= |names|
    requires DumpEach(names[..j], output, skip, order, query, write).Fatal?
    ensures DumpEach(names, output, skip, order, query, write) == DumpEach(names[..j], output, skip, order, query, write)
  {
    if j < |names| {
      assert names[..|names| - 1][..j] == names[..j];
      FatalSticks(names[..|names| - 1], j, output, skip, order, query, write);
    } else {
      assert names[..j] == names;
    }
  }

  /**
   * dumpCluster. The list is fetched first, so a failing list is fatal even when a
   * namespace is named; a named namespace is dumped whether or not it was listed.
   */
  method DumpCluster(listed: Result<seq<Namespace>, string>, output: string, namespace: string,
                     skip: seq<string>, order: seq<string>, query: Request -> QueryResult,
                     write: string -> Option<string>)
    returns (r: ClusterOutcome)
    ensures r == DumpClusterSpec(listed, output, namespace, skip, order, query, write)
  {
    if listed.Failure? {
      return Fatal(ListFailed(listed.error), []);
    }
    var items := listed.value;
    if namespace != "" {
      var d := DumpNamespace(namespace, output, skip, order, query, write);
      assert [namespace][..0] == [];
      assert DumpEach([namespace][..0], output, skip, order, query, write) == Completed([]);
      if d.Failure? {
        return Fatal(NamespaceFailed(namespace, d.error), []);
      }
      return Completed([d.value]);
    }
    var written: seq<NamespaceDump> := [];
    for i := 0 to |items|
      invariant DumpEach(LiveNames(items[..i]), output, skip, order, query, write) == Completed(written)
    {
      var ns := items[i];
      assert items[..i + 1][..i] == items[..i];
      if ns.phase == Terminating {
        continue;
      }
      var names := LiveNames(items[..i + 1]);
      assert names[..|names| - 1] == LiveNames(items[..i]);
      var d := DumpNamespace(ns.name, output, skip, order, query, write);
      if d.Failure? {
        assert DumpEach(names, output, skip, order, query, write) == Fatal(NamespaceFailed(ns.name, d.error), written);
        LiveNamesPrefix(items, i + 1);
        FatalSticks(LiveNames(items), |names|, output, skip, order, query, write);
        return Fatal(NamespaceFailed(ns.name, d.error), written);
      }
      written := written + [d.value];
    }
    assert items[..|items|] == items;
    return Completed(written);
  }

  /** The live names of a prefix of the list are a prefix of the live names of the list. */
  lemma {:induction false} LiveNamesPrefix(items: seq<Namespace>, j: nat)
    requires j <= |items|
    ensures |LiveNames(items[..j])| <= |LiveNames(items)|
    ensures LiveNames(items)[..|LiveNames(items[..j])|] == LiveNames(items[..j])
  {
    if j < |items| {
      assert items[..|items| - 1][..j] == items[..j];
      LiveNamesPrefix(items[..|items| - 1], j);
    } else {
      assert items[..j] == items;
    }
  }

  // ---------------------------------------------------------------------------
  // What a run dumps.
  // ---------------------------------------------------------------------------

  /**
   * A run that completes has one dump per selected namespace, in order, each being that
   * namespace's own successful dumpNamespace.
   */
  lemma {:induction false} DumpEachDumps(names: seq<string>, output: string, skip: seq<string>,
                                         order: seq<string>, query: Request -> QueryResult,
                                         write: string -> Option<string>)
    requires DumpEach(names, output, skip, order, query, write).Completed?
    ensures var ds := DumpEach(names, output, skip, order, query, write).dumps;
      && |ds| == |names|
      && (forall i :: 0 <= i < |names| ==>
           DumpNamespaceSpec(names[i], output, skip, order, query, write) == Success(ds[i]))
      && (forall i :: 0 <= i < |names| ==> ds[i].name == names[i] && ds[i].path == OutputPath(output, names[i]))
  {
    if names != [] {
      DumpEachDumps(names[..|names| - 1], output, skip, order, query, write);
    }
  }

  /** A run completes exactly when every selected namespace dumps without error. */
  lemma {:induction false} DumpEachCompletesIff(names: seq<string>, output: string, skip: seq<string>,
                                                order: seq<string>, query: Request -> QueryResult,
                                                write: string -> Option<string>)
    ensures DumpEach(names, output, skip, order, query, write).Completed? <==>
      forall i :: 0 <= i < |names| ==> DumpNamespaceSpec(names[i], output, skip, order, query, write).Success?
  {
    if names != [] {
      var init := names[..|names| - 1];
      DumpEachCompletesIff(init, output, skip, order, query, write);
      assert forall i :: 0 <= i < |init| ==> init[i] == names[i];
    }
  }

  /**
   * A fatal dump error names the first selected namespace whose dump fails, with its
   * error, and the dumps written before it are those of the namespaces before it.
   */
  lemma {:induction false} DumpEachStopsAtFirstFailure(names: seq<string>, output: string, skip: seq<string>,
                                                       order: seq<string>, query: Request -> QueryResult,
                                                       write: string -> Option<string>)
    requires DumpEach(names, output, skip, order, query, write).Fatal?
    ensures var r := DumpEach(names, output, skip, order, query, write);
      && r.error.NamespaceFailed?
      && var i := |r.written|;
      && i < |names| && names[i] == r.error.ns
      && DumpNamespaceSpec(names[i], output, skip, order, query, write) == Failure(r.error.error)
      && forall j :: 0 <= j < i ==> DumpNamespaceSpec(names[j], output, skip, order, query, write) == Success(r.written[j])
  {
    var init := names[..|names| - 1];
    match DumpEach(init, output, skip, order, query, write)
    case Fatal(_, _) =>
      DumpEachStopsAtFirstFailure(init, output, skip, order, query, write);
    case Completed(_) =>
      DumpEachDumps(init, output, skip, order, query, write);
  }

  /**
   * Without `--namespace`, a completed run dumps exactly the listed namespaces that are
   * not being terminated, each to `output/name.yaml`.
   */
  lemma AllLiveNamespacesDumped(items: seq<Namespace>, output: string, skip: seq<string>,
                                order: seq<string>, query: Request -> QueryResult,
                                write: string -> Option<string>)
    requires DumpClusterSpec(Success(items), output, "", skip, order, query, write).Completed?
    ensures var ds := DumpClusterSpec(Success(items), output, "", skip, order, query, write).dumps;
      && (forall d :: d in ds ==> exists ns :: ns in items && ns.name == d.name && ns.phase != Terminating)
      && (forall ns :: ns in items && ns.phase != Terminating ==> exists d :: d in ds && d.name == ns.name)
      && (forall d :: d in ds ==> d.path == OutputPath(output, d.name))
  {
    var names := LiveNames(items);
    DumpEachNames(names, output, skip, order, query, write);
    var ds := DumpEach(names, output, skip, order, query, write).dumps;
    forall ns | ns in items && ns.phase != Terminating
      ensures exists d :: d in ds && d.name == ns.name
    {
      assert ns.name in names;
    }
  }

  /** The dumps of a completed run are named after the selected namespaces, one for each. */
  lemma DumpEachNames(names: seq<string>, output: string, skip: seq<string>,
                      order: seq<string>, query: Request -> QueryResult, write: string -> Option<string>)
    requires DumpEach(names, output, skip, order, query, write).Completed?
    ensures var ds := DumpEach(names, output, skip, order, query, write).dumps;
      && (forall d :: d in ds ==> d.name in names && d.path == OutputPath(output, d.name))
      && (forall n :: n in names ==> exists d :: d in ds && d.name == n)
  {
    var ds := DumpEach(names, output, skip, order, query, write).dumps;
    DumpEachDumps(names, output, skip, order, query, write);
    forall d | d in ds
      ensures d.name in names
    {
      var i :| 0 <= i < |ds| && ds[i] == d;
    }
    forall n | n in names
      ensures exists d :: d in ds && d.name == n
    {
      var i :| 0 <= i < |names| && names[i] == n;
      assert ds[i] in ds;
    }
  }

  /**
   * With `--namespace`, exactly that namespace is dumped, whatever the list holds
   * (provided the list itself was fetched).
   */
  lemma NamedNamespaceOnly(items: seq<Namespace>, output: string, namespace: string, skip: seq<string>,
                           order: seq<string>, query: Request -> QueryResult, write: string -> Option<string>)
    requires namespace != ""
    ensures DumpClusterSpec(Success(items), output, namespace, skip, order, query, write) ==
      match DumpNamespaceSpec(namespace, output, skip, order, query, write)
      case Success(d) => Completed([d])
      case Failure(e) => Fatal(NamespaceFailed(namespace, e), [])
  {
    assert [namespace][..0] == [];
    assert DumpEach([namespace][..0], output, skip, order, query, write) == Completed([]);
  }

  /** A failing namespace list ends the run before anything is dumped, even for a named namespace. */
  lemma ListFailureIsFatal(cause: string, output: string, namespace: string, skip: seq<string>,
                           order: seq<string>, query: Request -> QueryResult, write: string -> Option<string>)
    ensures DumpClusterSpec(Failure(cause), output, namespace, skip, order, query, write) == Fatal(ListFailed(cause), [])
  {
  }

  /** The dumps of one run go to pairwise different files when their namespaces differ. */
  lemma DumpFilesDistinct(listed: Result<seq<Namespace>, string>, output: string, namespace: string,
                          skip: seq<string>, order: seq<string>, query: Request -> QueryResult,
                          write: string -> Option<string>, i: nat, j: nat)
    requires DumpClusterSpec(listed, output, namespace, skip, order, query, write).Completed?
    requires var ds := DumpClusterSpec(listed, output, namespace, skip, order, query, write).dumps;
      i < |ds| && j < |ds| && ds[i].name != ds[j].name
    ensures var ds := DumpClusterSpec(listed, output, namespace, skip, order, query, write).dumps;
      ds[i].path != ds[j].path
  {
    var names := Selected(namespace, listed.value);
    var ds := DumpEach(names, output, skip, order, query, write).dumps;
    DumpEachDumps(names, output, skip, order, query, write);
    if ds[i].path == ds[j].path {
      OutputPathInjective(output, ds[i].name, ds[j].name);
    }
  }
}
