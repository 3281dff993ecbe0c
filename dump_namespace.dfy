/**
 * dumpNamespace: query every kind of the table in one namespace, collect the lists
 * found, note the kinds the server does not know, and stop at any other error.
 * The REST client is the oracle `query` and `ioutil.WriteFile` the oracle `write`; the
 * template rendering is not modelled, so a successful dump is the template's input plus
 * the file path.
 */
module Dumper {
  import opened Wrappers
  import opened Kinds

  /** An API object of a list response; only its identity matters here. */
  datatype Item = Item(name: string)

  /** A GET of `resource` in `namespace` through the REST client of `group`. */
  datatype Request = Request(group: ApiGroup, namespace: string, resource: string)

  /** What the server answers to a request. */
  datatype QueryResult = Found(items: seq<Item>) | NotFound | OtherError(cause: string)

  /**
   * Why dumpNamespace returns an error: `errors.Wrap(err, "unexpected error querying type")`
   * for the kind that failed, or the error of `ioutil.WriteFile` for the dump file.
   */
  datatype DumpError = QueryFailed(kind: string, cause: string) | WriteFailed(path: string, cause: string)

  /** The `data` and `notFound` values the loop builds. */
  datatype Collected = Collected(types: map<string, seq<Item>>, notFound: seq<string>)

  /** A successful dump: where the file goes and the template's `name`, `notFound`, `types`. */
  datatype NamespaceDump = NamespaceDump(
    path: string, name: string, notFound: seq<string>, types: map<string, seq<Item>>)

  /** The request dumpNamespace sends for `kind`: through the client the switch picks. */
  function RequestFor(ns: string, kind: string): (req: Request)
  {
    Request(Route(kind), ns, kind)
  }

  /**
   * The list stored under a kind. `Into` decodes nothing when the request fails, so a
   * kind the server does not know is stored as an empty list.
   */
  function Stored(result: QueryResult): (items: seq<Item>)
  {
    if result.Found? then result.items else []
  }

  function NotFoundMessage(kind: string, ns: string): (m: string)
  {
    "there is no object of type " + kind + " in namespace " + ns
  }

  /** `fmt.Sprintf("%v/%v.yaml", output, ns)`. */
  function OutputPath(output: string, ns: string): (path: string)
  {
    output + "/" + ns + ".yaml"
  }

  /**
   * The loop of dumpNamespace run over `kinds`, in that order. A failure is the query
   * error of a kind that was visited and not skipped; a success has one message at most
   * per visited kind.
   */
  function Accumulate(ns: string, kinds: seq<string>, skip: seq<string>,
                      query: Request -> QueryResult): (r: Result<Collected, DumpError>)
    ensures r.Failure? ==>
      && r.error.QueryFailed? && r.error.kind in kinds && r.error.kind !in skip
      && query(RequestFor(ns, r.error.kind)) == OtherError(r.error.cause)
    ensures r.Success? ==> |r.value.notFound| <= |kinds|
  {
    if kinds == [] then Success(Collected(map[], []))
    else
      var kind := kinds[|kinds| - 1];
      match Accumulate(ns, kinds[..|kinds| - 1], skip, query)
      case Failure(e) => Failure(e)
      case Success(c) =>
        if kind in skip then Success(c)
        else
          match query(RequestFor(ns, kind))
          case OtherError(cause) => Failure(QueryFailed(kind, cause))
          case NotFound =>
            Success(Collected(c.types[kind := []], c.notFound + [NotFoundMessage(kind, ns)]))
          case Found(items) => Success(Collected(c.types[kind := items], c.notFound))
  }

  /**
   * dumpNamespace when the table is enumerated in the order `order` and `write` is the
   * outcome of writing the dump file at a path: None, or the cause of the failure.
   * The file is written only once every query has been answered.
   */
  function DumpNamespaceSpec(ns: string, output: string, skip: seq<string>, order: seq<string>,
                             query: Request -> QueryResult, write: string -> Option<string>)
    : (r: Result<NamespaceDump, DumpError>)
    ensures r.Success? ==>
      r.value.path == OutputPath(output, ns) && r.value.name == ns && write(r.value.path).None?
    ensures r.Failure? && r.error.WriteFailed? ==>
      Accumulate(ns, order, skip, query).Success? && write(r.error.path) == Some(r.error.cause)
  {
    match Accumulate(ns, order, skip, query)
    case Failure(e) => Failure(e)
    case Success(c) =>
      var path := OutputPath(output, ns);
      match write(path)
      case Some(cause) => Failure(WriteFailed(path, cause))
      case None => Success(NamespaceDump(path, ns, c.notFound, c.types))
  }

  /** The kinds whose query answers NotFound, in the order they are visited. */
  function NotFoundKinds(ns: string, kinds: seq<string>, skip: seq<string>,
                         query: Request -> QueryResult): (nf: seq<string>)
    ensures forall k :: k in nf <==> k in kinds && k !in skip && query(RequestFor(ns, k)).NotFound?
  {
    if kinds == [] then []
    else
      var kind := kinds[|kinds| - 1];
      var rest := NotFoundKinds(ns, kinds[..|kinds| - 1], skip, query);
      assert forall k :: k in kinds <==> k in kinds[..|kinds| - 1] || k == kind;
      if kind !in skip && query(RequestFor(ns, kind)).NotFound? then rest + [kind] else rest
  }

  /** The message for each kind of `kinds`, in order. */
  function Messages(ns: string, kinds: seq<string>): (ms: seq<string>)
    ensures |ms| == |kinds|
    ensures forall i :: 0 <= i < |kinds| ==> ms[i] == NotFoundMessage(kinds[i], ns)
  {
    if kinds == [] then [] else Messages(ns, kinds[..|kinds| - 1]) + [NotFoundMessage(kinds[|kinds| - 1], ns)]
  }

  /** Once the loop has failed on a prefix of the kinds, the whole loop fails the same way. */
  lemma {:induction false} FailureSticks(ns: string, kinds: seq<string>, j: nat, skip: seq<string>,
                                         query: Request -> QueryResult)
    requires j <= |kinds|
    requires Accumulate(ns, kinds[..j], skip, query).Failure?
    ensures Accumulate(ns, kinds, skip, query) == Accumulate(ns, kinds[..j], skip, query)
  {
    if j < |kinds| {
      assert kinds[..|kinds| - 1][..j] == kinds[..j];
      FailureSticks(ns, kinds[..|kinds| - 1], j, skip, query);
    } else {
      assert kinds[..j] == kinds;
    }
  }

  /**
   * dumpNamespace, walking the table in the order `order` (Go leaves the order of a
   * map's iteration unspecified). A skipped kind is passed over, every other kind is
   * queried through its client; a NotFound answer adds one message and an empty list,
   * any other error ends the dump.
   */
  method DumpNamespace(ns: string, output: string, skip: seq<string>, order: seq<string>,
                       query: Request -> QueryResult, write: string -> Option<string>)
    returns (r: Result<NamespaceDump, DumpError>)
    ensures r == DumpNamespaceSpec(ns, output, skip, order, query, write)
  {
    var data: map<string, seq<Item>> := map[];
    var notFound: seq<string> := [];
    for i := 0 to |order|
      invariant Accumulate(ns, order[..i], skip, query) == Success(Collected(data, notFound))
    {
      var kind := order[i];
      assert order[..i + 1][..i] == order[..i];
      var skipped := SkipType(kind, skip);
      if skipped {
        continue;
      }
      var result := query(Request(Route(kind), ns, kind));
      if result.OtherError? {
        FailureSticks(ns, order, i + 1, skip, query);
        return Failure(QueryFailed(kind, result.cause));
      }
      if result.NotFound? {
        notFound := notFound + [NotFoundMessage(kind, ns)];
      }
      data := data[kind := Stored(result)];
    }
    assert order[..|order|] == order;
    var path := OutputPath(output, ns);
    var written := write(path);
    if written.Some? {
      return Failure(WriteFailed(path, written.value));
    }
    return Success(NamespaceDump(path, ns, notFound, data));
  }

  // ---------------------------------------------------------------------------
  // What the loop computes, kind by kind.
  // ---------------------------------------------------------------------------

  /** The loop fails exactly when some kind that is not skipped answers an error other than NotFound. */
  lemma {:induction false} AccumulateFailsIff(ns: string, kinds: seq<string>, skip: seq<string>,
                                              query: Request -> QueryResult)
    ensures Accumulate(ns, kinds, skip, query).Failure? <==>
      exists k :: k in kinds && k !in skip && query(RequestFor(ns, k)).OtherError?
  {
    if kinds != [] {
      var init := kinds[..|kinds| - 1];
      AccumulateFailsIff(ns, init, skip, query);
      assert forall k :: k in kinds <==> k in init || k == kinds[|kinds| - 1];
    }
  }

  /**
   * A failure names the first failing kind in visiting order, with its cause: every kind
   * visited before it was skipped or answered something other than an error.
   */
  lemma {:induction false} AccumulateReportsFirstError(ns: string, kinds: seq<string>, skip: seq<string>,
                                                       query: Request -> QueryResult)
    requires Accumulate(ns, kinds, skip, query).Failure?
    ensures var e := Accumulate(ns, kinds, skip, query).error;
      && e.QueryFailed?
      && exists i :: 0 <= i < |kinds| && kinds[i] == e.kind && e.kind !in skip
           && query(RequestFor(ns, e.kind)) == OtherError(e.cause)
           && forall j :: 0 <= j < i ==> kinds[j] in skip || !query(RequestFor(ns, kinds[j])).OtherError?
  {
    var init := kinds[..|kinds| - 1];
    if Accumulate(ns, init, skip, query).Failure? {
      AccumulateReportsFirstError(ns, init, skip, query);
    } else {
      AccumulateFailsIff(ns, init, skip, query);
      var i := |kinds| - 1;
      forall j | 0 <= j < i
        ensures kinds[j] in skip || !query(RequestFor(ns, kinds[j])).OtherError?
      {
        assert kinds[j] in init;
      }
    }
  }

  /**
   * On success, `data` holds exactly the visited kinds that are not skipped, each under
   * the list its own query returned (empty for NotFound).
   */
  lemma {:induction false} AccumulateTypes(ns: string, kinds: seq<string>, skip: seq<string>,
                                           query: Request -> QueryResult)
    requires Accumulate(ns, kinds, skip, query).Success?
    ensures var types := Accumulate(ns, kinds, skip, query).value.types;
      && (forall k :: k in types <==> k in kinds && k !in skip)
      && (forall k :: k in types ==> types[k] == Stored(query(RequestFor(ns, k))))
  {
    if kinds != [] {
      var init := kinds[..|kinds| - 1];
      AccumulateTypes(ns, init, skip, query);
      assert forall k :: k in kinds <==> k in init || k == kinds[|kinds| - 1];
    }
  }

  /** On success, `notFound` holds one message per NotFound kind, in visiting order. */
  lemma {:induction false} AccumulateNotFound(ns: string, kinds: seq<string>, skip: seq<string>,
                                              query: Request -> QueryResult)
    requires Accumulate(ns, kinds, skip, query).Success?
    ensures Accumulate(ns, kinds, skip, query).value.notFound ==
      Messages(ns, NotFoundKinds(ns, kinds, skip, query))
  {
    if kinds != [] {
      AccumulateNotFound(ns, kinds[..|kinds| - 1], skip, query);
    }
  }

  /**
   * A skipped kind is never queried, and no request other than the routed one for each
   * remaining kind is sent: two servers that agree on those requests give the same dump.
   */
  lemma {:induction false} OnlyRoutedRequestsMatter(ns: string, kinds: seq<string>, skip: seq<string>,
                                                    q1: Request -> QueryResult, q2: Request -> QueryResult)
    requires forall k :: k in kinds && k !in skip ==> q1(RequestFor(ns, k)) == q2(RequestFor(ns, k))
    ensures Accumulate(ns, kinds, skip, q1) == Accumulate(ns, kinds, skip, q2)
  {
    if kinds != [] {
      var init := kinds[..|kinds| - 1];
      assert forall k :: k in init ==> k in kinds;
      OnlyRoutedRequestsMatter(ns, init, skip, q1, q2);
    }
  }

  // ---------------------------------------------------------------------------
  // The messages.
  // ---------------------------------------------------------------------------

  /** Different kinds give different messages, so no NotFound kind hides another. */
  lemma NotFoundMessageInjective(k1: string, k2: string, ns: string)
    requires NotFoundMessage(k1, ns) == NotFoundMessage(k2, ns)
    ensures k1 == k2
  {
    var prefix := "there is no object of type ";
    var suffix := " in namespace " + ns;
    var m := NotFoundMessage(k1, ns);
    assert m == prefix + k1 + suffix && m == prefix + k2 + suffix;
    assert |k1| == |k2|;
    assert k1 == m[|prefix|..|prefix| + |k1|];
  }

  lemma SplitLast<T>(s: seq<T>)
    requires s != []
    ensures s == s[..|s| - 1] + [s[|s| - 1]]
    ensures multiset(s) == multiset(s[..|s| - 1]) + multiset{s[|s| - 1]}
  {
    assert s == s[..|s| - 1] + [s[|s| - 1]];
  }

  /** Each kind of `kinds` contributes its message as many times as it occurs. */
  lemma {:induction false} MessagesCount(ns: string, kinds: seq<string>, k: string)
    ensures multiset(Messages(ns, kinds))[NotFoundMessage(k, ns)] == multiset(kinds)[k]
  {
    if kinds != [] {
      var init, last := kinds[..|kinds| - 1], kinds[|kinds| - 1];
      MessagesCount(ns, init, k);
      SplitLast(kinds);
      var m, mk := NotFoundMessage(last, ns), NotFoundMessage(k, ns);
      SplitLast(Messages(ns, kinds));
      if m == mk {
        NotFoundMessageInjective(last, k, ns);
      }
    }
  }

  /** Every message stands for a kind of `kinds`. */
  lemma MessagesOnlyOfKinds(ns: string, kinds: seq<string>, m: string)
    requires m in Messages(ns, kinds)
    ensures exists k :: k in kinds && m == NotFoundMessage(k, ns)
  {
    var i :| 0 <= i < |kinds| && Messages(ns, kinds)[i] == m;
    assert kinds[i] in kinds;
  }

  /** Kinds with the same multiplicities give messages with the same multiplicities. */
  lemma MessagesPermutation(ns: string, a: seq<string>, b: seq<string>)
    requires multiset(a) == multiset(b)
    ensures multiset(Messages(ns, a)) == multiset(Messages(ns, b))
  {
    forall m
      ensures multiset(Messages(ns, a))[m] == multiset(Messages(ns, b))[m]
    {
      if m in Messages(ns, a) {
        MessagesOnlyOfKinds(ns, a, m);
        var k :| k in a && m == NotFoundMessage(k, ns);
        MessagesCount(ns, a, k);
        MessagesCount(ns, b, k);
      } else if m in Messages(ns, b) {
        MessagesOnlyOfKinds(ns, b, m);
        var k :| k in b && m == NotFoundMessage(k, ns);
        MessagesCount(ns, a, k);
        MessagesCount(ns, b, k);
      }
    }
  }

  /** With no kind visited twice, a NotFound kind is listed exactly once and no other kind at all. */
  lemma {:induction false} NotFoundKindsCount(ns: string, kinds: seq<string>, skip: seq<string>,
                                              query: Request -> QueryResult, k: string)
    requires forall i, j :: 0 <= i < j < |kinds| ==> kinds[i] != kinds[j]
    ensures multiset(NotFoundKinds(ns, kinds, skip, query))[k] ==
      if k in kinds && k !in skip && query(RequestFor(ns, k)).NotFound? then 1 else 0
  {
    if kinds != [] {
      var init, last := kinds[..|kinds| - 1], kinds[|kinds| - 1];
      NotFoundKindsCount(ns, init, skip, query, k);
      assert last !in init;
      assert forall x :: x in kinds <==> x in init || x == last;
    }
  }

  // ---------------------------------------------------------------------------
  // dumpNamespace over the whole table.
  // ---------------------------------------------------------------------------

  /**
   * The dump fails exactly when a kind that is not skipped answers an error other than
   * NotFound, or when the dump file cannot be written. A query error is reported before
   * the file is written: the failure is a write failure only when every query succeeded.
   */
  lemma DumpFailsIff(ns: string, output: string, skip: seq<string>, order: seq<string>,
                     query: Request -> QueryResult, write: string -> Option<string>)
    requires IsEnumeration(order)
    ensures DumpNamespaceSpec(ns, output, skip, order, query, write).Failure? <==>
      (exists k :: k in Mapping && k !in skip && query(RequestFor(ns, k)).OtherError?)
      || write(OutputPath(output, ns)).Some?
    ensures var r := DumpNamespaceSpec(ns, output, skip, order, query, write);
      r.Failure? && r.error.WriteFailed? <==>
        (forall k :: k in Mapping && k !in skip ==> !query(RequestFor(ns, k)).OtherError?)
        && write(OutputPath(output, ns)).Some?
  {
    AccumulateFailsIff(ns, order, skip, query);
  }

  /**
   * A successful dump is written to `output/ns.yaml`, is named after the namespace,
   * holds a list for exactly the table's kinds that are not skipped, each the answer to
   * its own routed request, and one message per kind the server does not know.
   */
  lemma DumpContents(ns: string, output: string, skip: seq<string>, order: seq<string>,
                     query: Request -> QueryResult, write: string -> Option<string>)
    requires IsEnumeration(order)
    requires DumpNamespaceSpec(ns, output, skip, order, query, write).Success?
    ensures var d := DumpNamespaceSpec(ns, output, skip, order, query, write).value;
      && d.path == output + "/" + ns + ".yaml"
      && d.name == ns
      && (forall k :: k in d.types <==> k in Mapping && k !in skip)
      && (forall k :: k in d.types ==> d.types[k] == Stored(query(RequestFor(ns, k))))
      && (forall k :: NotFoundMessage(k, ns) in d.notFound <==>
            k in Mapping && k !in skip && query(RequestFor(ns, k)).NotFound?)
      && (forall k :: multiset(d.notFound)[NotFoundMessage(k, ns)] <= 1)
      && (forall m :: m in d.notFound ==> exists k :: k in Mapping && m == NotFoundMessage(k, ns))
  {
    var d := DumpNamespaceSpec(ns, output, skip, order, query, write).value;
    var nfk := NotFoundKinds(ns, order, skip, query);
    AccumulateTypes(ns, order, skip, query);
    AccumulateNotFound(ns, order, skip, query);
    assert d.notFound == Messages(ns, nfk);
    forall k
      ensures multiset(d.notFound)[NotFoundMessage(k, ns)] == multiset(nfk)[k]
      ensures multiset(d.notFound)[NotFoundMessage(k, ns)] <= 1
    {
      MessagesCount(ns, nfk, k);
      NotFoundKindsCount(ns, order, skip, query, k);
    }
    forall k
      ensures NotFoundMessage(k, ns) in d.notFound <==>
        k in Mapping && k !in skip && query(RequestFor(ns, k)).NotFound?
    {
      assert NotFoundMessage(k, ns) in d.notFound <==> multiset(d.notFound)[NotFoundMessage(k, ns)] > 0;
      assert k in nfk <==> multiset(nfk)[k] > 0;
    }
    forall m | m in d.notFound
      ensures exists k :: k in Mapping && m == NotFoundMessage(k, ns)
    {
      MessagesOnlyOfKinds(ns, nfk, m);
    }
  }

  /**
   * The order in which Go happens to enumerate the table changes nothing in a
   * successful dump except the order of the NotFound messages; whether the dump fails
   * does not depend on it either (only which error is reported may).
   */
  lemma DumpOrderIndependent(ns: string, output: string, skip: seq<string>,
                             o1: seq<string>, o2: seq<string>, query: Request -> QueryResult,
                             write: string -> Option<string>)
    requires IsEnumeration(o1) && IsEnumeration(o2)
    ensures DumpNamespaceSpec(ns, output, skip, o1, query, write).Success? ==
            DumpNamespaceSpec(ns, output, skip, o2, query, write).Success?
    ensures DumpNamespaceSpec(ns, output, skip, o1, query, write).Success? ==>
      var d1 := DumpNamespaceSpec(ns, output, skip, o1, query, write).value;
      var d2 := DumpNamespaceSpec(ns, output, skip, o2, query, write).value;
      d1.path == d2.path && d1.name == d2.name && d1.types == d2.types
        && multiset(d1.notFound) == multiset(d2.notFound)
  {
    DumpFailsIff(ns, output, skip, o1, query, write);
    DumpFailsIff(ns, output, skip, o2, query, write);
    if DumpNamespaceSpec(ns, output, skip, o1, query, write).Success? {
      TypesOrderIndependent(ns, o1, o2, skip, query);
      AccumulateNotFound(ns, o1, skip, query);
      AccumulateNotFound(ns, o2, skip, query);
      NotFoundKindsPermutation(ns, o1, o2, skip, query);
      MessagesPermutation(ns, NotFoundKinds(ns, o1, skip, query), NotFoundKinds(ns, o2, skip, query));
    }
  }

  /** Two enumerations of the table that both succeed collect the same lists. */
  lemma TypesOrderIndependent(ns: string, o1: seq<string>, o2: seq<string>, skip: seq<string>,
                              query: Request -> QueryResult)
    requires IsEnumeration(o1) && IsEnumeration(o2)
    requires Accumulate(ns, o1, skip, query).Success? && Accumulate(ns, o2, skip, query).Success?
    ensures Accumulate(ns, o1, skip, query).value.types == Accumulate(ns, o2, skip, query).value.types
  {
    AccumulateTypes(ns, o1, skip, query);
    AccumulateTypes(ns, o2, skip, query);
  }

  /** Two enumerations of the table find the same NotFound kinds, possibly in another order. */
  lemma NotFoundKindsPermutation(ns: string, o1: seq<string>, o2: seq<string>, skip: seq<string>,
                                 query: Request -> QueryResult)
    requires IsEnumeration(o1) && IsEnumeration(o2)
    ensures multiset(NotFoundKinds(ns, o1, skip, query)) == multiset(NotFoundKinds(ns, o2, skip, query))
  {
    forall k
      ensures multiset(NotFoundKinds(ns, o1, skip, query))[k] == multiset(NotFoundKinds(ns, o2, skip, query))[k]
    {
      NotFoundKindsCount(ns, o1, skip, query, k);
      NotFoundKindsCount(ns, o2, skip, query, k);
    }
  }

  /** With the default `--skip-types`, a successful dump holds a list for every kind of the table. */
  lemma DefaultFlagsDumpEveryKind(ns: string, output: string, order: seq<string>,
                                  query: Request -> QueryResult, write: string -> Option<string>)
    requires IsEnumeration(order)
    requires DumpNamespaceSpec(ns, output, DefaultSkipTypes, order, query, write).Success?
    ensures DumpNamespaceSpec(ns, output, DefaultSkipTypes, order, query, write).value.types.Keys == Mapping.Keys
  {
    AccumulateTypes(ns, order, DefaultSkipTypes, query);
    forall k | k in Mapping
      ensures k !in DefaultSkipTypes
    {
      DefaultSkipsNothing(k);
    }
  }

  /** Two namespaces never share a dump file, so the per-namespace goroutines never write the same path. */
  lemma OutputPathInjective(output: string, ns1: string, ns2: string)
    requires OutputPath(output, ns1) == OutputPath(output, ns2)
    ensures ns1 == ns2
  {
    var p := OutputPath(output, ns1);
    assert p == (output + "/") + ns1 + ".yaml" && p == (output + "/") + ns2 + ".yaml";
    assert |ns1| == |ns2|;
    assert ns1 == p[|output| + 1..|output| + 1 + |ns1|];
  }

  /** With `--output` left at its default "", the dump goes to the root directory. */
  lemma EmptyOutputWritesToRoot(ns: string)
    ensures OutputPath("", ns)[0] == '/'
  {
  }
}
