# k8s-dump: a verified model of the dump logic

k8s-dump writes one YAML snapshot file per namespace of a Kubernetes cluster. For
each namespace it queries a fixed table of 21 resource kinds, collects the lists it
gets back, notes the kinds the server reports as not found, and writes the result to
`<output>/<namespace>.yaml`. Before writing, it strips every `resourceVersion` field
from the printed YAML.

This project models the decision logic of `main.go` in Dafny and proves what it
does. Every call to the Kubernetes API is an input to the model:

- the namespace list is a `Result<seq<Namespace>, string>`;
- each REST query is a total function `query: Request -> QueryResult`, where a
  `Request` names the API group's client, the namespace and the resource. The answer
  is `Found(items)`, `NotFound` or `OtherError(cause)`;
- writing a dump file is a total function `write: string -> Option<string>` from the
  file's path to `None` on success or `Some(cause)` on failure;
- the YAML printer's output is a `Result<string, E>`.

Modules:

- `Kinds` (`kinds.dfy`) holds the table of `newMappingFactoring`, the routing
  `switch` from a kind to its API group's client, the default `--skip-types` list and
  `skipType`.
- `ResourceVersion` (`resource_version.dfy`) holds the rewrite
  `(\s*)resourceVersion: "(\d+)"` → `""`, written out as a string function. It also
  holds `marshalYaml` and the `objectToYaml` template function.
- `Dumper` (`dump_namespace.dfy`) holds `dumpNamespace`: a method with the source's
  loop, proved equal to the specification function `DumpNamespaceSpec`, plus lemmas
  about that function.
- `Cluster` (`dump_cluster.dfy`) holds `dumpCluster`: the namespace selection and the
  per-namespace dumps, as a method proved against `DumpClusterSpec`, plus lemmas.
- `Wrappers` (`wrappers.dfy`) holds `Option` and `Result`.

Go does not specify the order in which it iterates over a map. So the order in which
`dumpNamespace` visits the table is a parameter `order`, and `IsEnumeration(order)`
says it lists every kind of the table exactly once. `Dumper.DumpOrderIndependent`
shows what this order can change:

- whether the dump fails does not depend on it;
- on success, only the order of the NotFound messages depends on it;
- on failure, only which error is reported depends on it.

With `--output` left at its default of "", the path `"/" + ns + ".yaml"` points into
the filesystem root (`Dumper.EmptyOutputWritesToRoot`). The model keeps the source's
`Sprintf`.

## Model

| member | source | states |
|---|---|---|
| Kinds.Route | main.go:243-256 | The routing is total. `horizontalpodautoscalers` goes to Autoscaling, `jobs` to Batch, `statefulsets` to Apps and `storageclasses` to Storage, each if and only if. A kind goes to Extensions exactly when it is one of the seven extensions kinds. |
| Kinds.RouteAgreesWithMapping | main.go:182-206 | For every kind of the table, the client the switch picks belongs to the API group of the list type that the kind is decoded into. |
| Kinds.RouteDefaultIsCore | main.go:254-255 | Every kind the switch does not name goes to the Core client. |
| Kinds.DefaultSkipsNothing | main.go:41 | No kind of the table is in the default skip list `["serviceaccount"]`. |
| Kinds.SkipType | main.go:289-297 | `skipType` returns true exactly when some element of `names` equals `skip`. It returns false for an empty list. |
| ResourceVersion.DigitRun | main.go:209 | The `\d+` run: every counted character is a digit, and the character after the run is not. |
| ResourceVersion.MatchLen | main.go:209 | A match found at a position is at least as long as the key plus one digit and a quote, and fits in the text. |
| ResourceVersion.MatchLenExact | main.go:209 | A prefix of length n matches the whole pattern `(\s*)resourceVersion: "(\d+)"` if and only if `MatchLen` reports a match of length n. So the match at a position has a single possible length, and the greedy reading is the only one. |
| ResourceVersion.DigitsThenQuotePrefix | main.go:209 | A prefix is `\d+"` exactly when it is the maximal digit run followed by a quote. |
| ResourceVersion.FieldInPattern | main.go:209 | Whitespace, then `resourceVersion: "`, then one or more digits, then `"` is matched by the pattern. |
| ResourceVersion.Strip | main.go:309 | `ReplaceAllString(s, "")`: the scan goes left to right; a match that starts at the current position is deleted and the scan resumes right after it, otherwise the current character is kept. The output is never longer than the input. |
| ResourceVersion.StripRemovesField | main.go:309 | A resourceVersion field at the front of the text, with its leading whitespace, is deleted and the rest is rewritten the same way. |
| ResourceVersion.StripKeepsPrefix | main.go:309 | Characters at which no match starts reach the output unchanged and in order. |
| ResourceVersion.StripKeepsUnmatched | main.go:309 | Text before the next match is copied unchanged, so `Strip(t + s) == t + Strip(s)`. |
| ResourceVersion.StripShortens | main.go:309 | If a match starts anywhere in the text, the output is strictly shorter than the input. |
| ResourceVersion.StripUnchangedIff | main.go:309 | The rewrite leaves the text unchanged if and only if no match of the pattern starts anywhere in it. |
| ResourceVersion.MarshalYaml | main.go:301-310 | If the printer fails, the result is "" together with the printer's error. Otherwise it is the printed text with every field removed, and no error. |
| ResourceVersion.ObjectToYaml | main.go:222-228 | The template function yields "" when the printer fails, and the rewritten text otherwise. |
| Dumper.Accumulate | main.go:235-273 | The loop body applied to each kind in turn. A failure is the error of a kind that was visited, is not skipped, and whose routed query answered that error. A success has at most one NotFound message per visited kind. |
| Dumper.DumpNamespaceSpec | main.go:265-286 | A successful dump is at `output/ns.yaml`, is named `ns`, and its file was written without error. A write failure happens only after every query of the loop succeeded, and carries the write's own cause. |
| Dumper.DumpNamespace | main.go:214-287 | The loop over the table (skip, route, query, store, note NotFound, abort on any other error), followed by the file write whose error is returned, gives exactly `DumpNamespaceSpec` for the given enumeration order. |
| Dumper.FailureSticks | main.go:265-268 | Once a query has failed with an error other than NotFound, the dump returns that failure. No later kind changes it. |
| Dumper.AccumulateFailsIff | main.go:265-268 | The loop fails if and only if some kind that is not skipped answers an error other than NotFound. |
| Dumper.AccumulateReportsFirstError | main.go:235-268 | A failure names the first failing kind in visiting order, with its cause. Every kind visited before it was skipped or did not fail. |
| Dumper.AccumulateTypes | main.go:235-272 | On success, `data` has a key for exactly the visited kinds that are not skipped. Each key holds the list its own routed query returned, or an empty list after NotFound. |
| Dumper.AccumulateNotFound | main.go:265-270 | On success, `notFound` holds one message per NotFound kind, in visiting order. |
| Dumper.NotFoundKinds | main.go:265-270 | A kind is among the NotFound kinds if and only if it was visited, is not skipped and its query answered NotFound. |
| Dumper.Messages | main.go:269 | Message i is "there is no object of type T in namespace NS" for the i-th kind. |
| Dumper.OnlyRoutedRequestsMatter | main.go:236-263 | A skipped kind is never queried, and each other kind is queried only through the client the switch picks. Two servers that agree on these requests give the same result. |
| Dumper.NotFoundMessageInjective | main.go:269 | Different kinds give different NotFound messages. |
| Dumper.MessagesCount | main.go:269 | A kind's message occurs in the messages exactly as often as the kind occurs in the list of kinds. |
| Dumper.MessagesOnlyOfKinds | main.go:269 | Every message is the message of one of the kinds. |
| Dumper.MessagesPermutation | main.go:269 | Lists of kinds that are permutations of each other give message lists that are permutations of each other. |
| Dumper.NotFoundKindsCount | main.go:265-270 | If no kind is visited twice, each NotFound kind is listed exactly once and no other kind is listed. |
| Dumper.DumpFailsIff | main.go:265-286 | The modelled dump returns an error if and only if some kind of the table that is not skipped answers an error other than NotFound, or the file at `output/ns.yaml` cannot be written. The error is a write error if and only if no query failed and the write fails. |
| Dumper.DumpContents | main.go:235-285 | A successful dump is written to `output + "/" + ns + ".yaml"` and is named `ns`. It has a list for exactly the kinds of the table that are not skipped, each the answer to its routed query. Each NotFound kind has exactly one message, and every message names a kind of the table. |
| Dumper.DumpOrderIndependent | main.go:235 | Whether the dump succeeds does not depend on the map iteration order. On success, the path, the name and the lists are the same in every order, and the messages are the same up to order. |
| Dumper.TypesOrderIndependent | main.go:235-272 | Two successful enumerations of the table collect identical `data` maps. |
| Dumper.NotFoundKindsPermutation | main.go:235-270 | Two enumerations of the table find the same NotFound kinds, up to order. |
| Dumper.DefaultFlagsDumpEveryKind | main.go:235-239 | With the default skip list, a successful dump holds a list for every one of the 21 kinds. |
| Dumper.OutputPathInjective | main.go:285 | Different namespaces get different file paths. |
| Dumper.EmptyOutputWritesToRoot | main.go:285 | With an empty `--output`, the file path starts with "/". |
| Cluster.LiveNames | main.go:161-165 | A name is selected if and only if some listed namespace has that name and is not in phase Terminating. |
| Cluster.Selected | main.go:150-165 | With `--namespace`, exactly that namespace is selected. Without it, a name is selected if and only if a listed namespace has it and is not Terminating. |
| Cluster.DumpEach | main.go:160-176 | A completed run has one dump per selected namespace. A fatal run names a namespace whose dump failed, with that dump's error, and it is the namespace right after those already written. |
| Cluster.DumpCluster | main.go:143-180 | The method returns exactly `DumpClusterSpec`. It lists the namespaces first, dumps the named namespace alone when one is given, and otherwise dumps each non-terminating listed namespace in turn. The first failure is fatal. |
| Cluster.FatalSticks | main.go:169-173 | Once one namespace's dump has failed, the run ends with that failure. |
| Cluster.LiveNamesPrefix | main.go:161-165 | Filtering a prefix of the list gives a prefix of the filtered list. |
| Cluster.DumpEachDumps | main.go:160-176 | A completed run has one dump per selected namespace, in order. Each is that namespace's successful dump, with its name and its file path. |
| Cluster.DumpEachCompletesIff | main.go:160-176 | A run completes if and only if every selected namespace dumps without error. |
| Cluster.DumpEachStopsAtFirstFailure | main.go:169-173 | A fatal run names the first selected namespace whose dump fails, with its error. The dumps written before it are those of the namespaces before it. |
| Cluster.AllLiveNamespacesDumped | main.go:150-176 | Without `--namespace`, a completed run dumps exactly the listed namespaces that are not Terminating, each to `output/name.yaml`. |
| Cluster.DumpEachNames | main.go:160-176 | Every dump is named after a selected namespace and goes to that namespace's path. Every selected namespace has a dump. |
| Cluster.NamedNamespaceOnly | main.go:150-158 | With `--namespace`, the run dumps exactly that namespace, whether or not it appears in the list. |
| Cluster.ListFailureIsFatal | main.go:144-147 | A failing namespace list ends the run before any dump, even when a namespace is named. |
| Cluster.DumpFilesDistinct | main.go:167-175 | Two dumps of one run with different namespace names go to different files. |

## Left out

- Client construction, kubeconfig loading and the QPS, Burst and content-type settings (main.go:98-127) are calls into the Kubernetes client library.
- Flag parsing, glog logging, `handleFatalInitError` and `os.Exit` (main.go:32-57, 129-139) are left out. `glog.Fatalf` is modelled as a `Fatal` outcome.
- Template parsing and execution (main.go:67-95, 221-233, 279-283) belong to `text/template`. The model returns the template's input (`name`, `notFound`, `types`) instead of the rendered text. The parse error path is not modelled, because the template is a constant. The execution error path is not modelled either.
- The REST queries and `ioutil.WriteFile` (main.go:258-263, 286) are network and file I/O. They are the `query` and `write` oracles. The bytes written are not modelled, so the outcome of a write depends only on its path.
- yaml.go is not part of this model. `main.go` uses `kubectl.YAMLPrinter`, and that printer is an input here.
- API objects are opaque (`Item`), because only their identity passes through the logic.
- Errors wrapped with `errors.Wrap` are datatype values, not their message strings.
- Cluster.DumpCluster: the goroutines and the `WaitGroup` (main.go:160-178) become a sequential loop in list order. On a fatal error, the source exits while other goroutines may already have written their files. The model keeps only the dumps of the namespaces listed before the failing one. The source reports whichever failing goroutine reaches `glog.Fatalf` first; the model reports the first failing namespace in list order (`Cluster.DumpEachStopsAtFirstFailure`).
- Dumper.DumpFailsIff: the error of `t.Execute` (main.go:280-283) is not among the failures, because template execution is not modelled.
- Dumper.DumpNamespace: a single enumeration `order` is used for every namespace. In Go, each call draws its own map iteration order. `Dumper.DumpOrderIndependent` shows that this changes only the order of the messages and which error is reported.
- ResourceVersion.MatchLen: Go's regexp works on UTF-8 text. The model works on `char` sequences with the ASCII classes `\s = [\t\n\f\r ]` and `\d = [0-9]`, which are what RE2 uses.
