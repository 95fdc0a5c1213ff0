# th2 message comparator service — Dafny model

The service takes a batch of comparison tasks. Each task holds two wire
messages and settings with an ignore list. For each task the service does
four things:

- It converts both messages for the comparison library.
- It runs the library's comparison with the second message as the actual
  side and the first as the expected (filter) side.
- It turns the library's result tree into a `ComparisonEntry` tree.
- It answers with the two message ids and that tree.

The repository has two versions of this service:

- `util/MessageComparator.java` is the newer one. Module `MessageComparator`
  models it.
- `utility/MessageComparatorService.java` is the older one. Module
  `MessageComparatorService` models it.

The comparison walk, the ignore handling and the status rollup happen inside
the library and are not in the repository. `Sailfish.Library` passes those
calls in as uninterpreted functions:

- `compare`
- `getStatusType`
- `formatExpected`
- `formatForHtml`
- the wire-to-library converter `fromProtoMessage`

So the model says what the service does around those calls:

- how a result tree becomes an entry tree: types, statuses, children, renderings
- which errors are thrown
- how the engine is called: argument order and settings
- how a batch is assembled

Files:

- `wrappers.dfy`: `Option` stands for a nullable reference, and `Result` for
  a call that may throw.
- `exceptions.dfy`: the exceptions that can be raised.
- `proto.dfy`: the wire messages, the `ComparisonEntry` tree, and
  `EntryBuilder`. `EntryBuilder` is the protobuf builder. Its setters throw
  `NullPointerException` when handed null. A field never set is `None`.
- `sailfish.dfy`: the library's status enum, its result tree, its settings and
  the `Library` record. A result's sub-results are a sequence of
  (name, sub-result) pairs in map iteration order. Lookup by name takes the
  last pair with that name, as successive `putFields` calls leave it. A Java
  map has distinct keys, so this is the only pair with that name.
- `pipeline.dfy`: the shared batch shape, `map` then `toList`.
- `message_comparator.dfy` and `message_comparator_service.dfy`: the two
  versions of the service.
- `examples_task.dfy`: the unit test's task.

The entry conversion builds a protobuf builder step by step. It is modelled
twice:

- as a recursive specification function: `EntryOf` / `PutAll`, and
  `EntryAsWritten` / `PutAllAsWritten`
- as imperative methods over an `EntryBuilder`, proved equal to that function:
  `ConvertToComparisonEntry` with `ConvertAndPutSubComparisons` or
  `PutSubComparisons`

The per-task pipeline and the batch are expression chains in the source, so
they are functions here.

Two behaviours of the code worth stating up front:

- When the library gives a sub-result no status, the newer service leaves that
  entry's status unset and does not throw. Only a null rollup status at the
  root throws.
- Both versions fail the whole batch on the first error.

## Model

`MessagePairFrom` and `Compare` (`MessagePair.from` and
`ComparisonMessagesResult.compare`) carry no contract of their own. The
`CompareTask` rows state what they do, since `CompareTask` is those two calls
followed by `Convert`.

| member | source | states |
|---|---|---|
| MessageComparator.CreateSettings | src/main/java/com/exactpro/th2/util/MessageComparator.java:154-158 | a name is ignored by the library exactly when it occurs in the task's ignore list |
| MessageComparator.CreateSettingsCollapsesDuplicates | src/main/java/com/exactpro/th2/util/MessageComparator.java:154-158 | the ignored set is no larger than the ignore list, and it is the same size exactly when the list has no repeated name: collecting into a set only collapses duplicates |
| MessageComparator.ConvertToProto | src/main/java/com/exactpro/th2/util/MessageComparator.java:160-176 | succeeds exactly for PASSED, FAILED and NA, giving the entry status with the same name; null throws IllegalArgumentException("Status can't be null"); any other status throws IllegalArgumentException |
| MessageComparator.EntryOf | src/main/java/com/exactpro/th2/util/MessageComparator.java:178-189 | conversion of one node succeeds exactly when every node below it has non-null renderings and a null or handled status. The result has first = formatExpected and second = formatForHtml(actual, false). Its type is COLLECTION exactly when the node has sub-results, else FIELD. Its status is set exactly when the node's status is non-null, and then has the same name. Its child keys are exactly the sub-result names. Failures are NullPointer or IllegalArgument only |
| MessageComparator.PutAll | src/main/java/com/exactpro/th2/util/MessageComparator.java:197-202 | putting sub-entries succeeds exactly when every remaining sub-result converts, and the keys become the old keys plus the remaining sub-result names |
| MessageComparator.ConvertToComparisonEntry | src/main/java/com/exactpro/th2/util/MessageComparator.java:178-189 | filling a fresh builder setter by setter, with the status set only when non-null, gives exactly EntryOf, including which exception is thrown |
| MessageComparator.ConvertAndPutSubComparisons | src/main/java/com/exactpro/th2/util/MessageComparator.java:197-202 | the forEach loop of putFields leaves the builder's other fields alone and its children equal to PutAll from the old children, or throws PutAll's exception |
| MessageComparator.PutAllValues | src/main/java/com/exactpro/th2/util/MessageComparator.java:197-202 | after the puts, the entry under a name is the conversion of the last sub-result with that name; names not among the sub-results keep their old entry |
| MessageComparator.EntryChildren | src/main/java/com/exactpro/th2/util/MessageComparator.java:197-202 | a converted entry has a child under a name exactly when the source node has a sub-result of that name, and that child is the sub-result's own conversion |
| MessageComparator.EntryMirrorsTree | src/main/java/com/exactpro/th2/util/MessageComparator.java:178-202 | for every path of names, the entry tree has a node exactly where the result tree has one; each such node is the conversion of the result node and carries its type, status and keys |
| MessageComparator.Convert | src/main/java/com/exactpro/th2/util/MessageComparator.java:135-142 | the answer succeeds exactly when every sub-result converts and the rollup is a handled non-null status. It carries the first message's id as first id and the second's as second id. The root entry has no renderings and no type, the rollup's status under the same name, and children that mirror the sub-results. When the children convert but the rollup is null, it throws IllegalArgumentException("Status can't be null") |
| MessageComparator.CompareTask | src/main/java/com/exactpro/th2/util/MessageComparator.java:117-158 | a conversion failure of the first message, then of the second, fails the task. Otherwise the library is run as compare(second, first) with the task's ignore list as a set. The answer is Convert's, with ids copied from first and second in task order |
| MessageComparator.CompareMessageVsMessage | src/main/java/com/exactpro/th2/util/MessageComparator.java:64-87 | the response succeeds exactly when every task does, and then has one result per task, in task order. Otherwise it fails with the first failing task's error combined with the end handler's RuntimeException around it |
| MessageComparator.CompareFilterVsMessages | src/main/java/com/exactpro/th2/util/MessageComparator.java:59-62 | every request fails with UNIMPLEMENTED |
| Pipeline.MapAll | src/main/java/com/exactpro/th2/util/MessageComparator.java:65-71 | map-then-toList yields one output per input in input order exactly when no step throws; otherwise the error is that of the first input whose step throws |
| Proto.EntryBuilder.constructor | src/main/java/com/exactpro/th2/util/MessageComparator.java:179 | a new builder has no field set and no children |
| Proto.EntryBuilder.SetFirst | src/main/java/com/exactpro/th2/util/MessageComparator.java:180 | null throws NullPointerException and leaves the builder as it was; otherwise only the first rendering changes |
| Proto.EntryBuilder.SetSecond | src/main/java/com/exactpro/th2/util/MessageComparator.java:181 | null throws NullPointerException and leaves the builder as it was; otherwise only the second rendering changes |
| Proto.EntryBuilder.SetType | src/main/java/com/exactpro/th2/util/MessageComparator.java:182-184 | only the type changes |
| Proto.EntryBuilder.SetStatus | src/main/java/com/exactpro/th2/util/MessageComparator.java:186 | null throws NullPointerException and leaves the builder as it was; otherwise only the status changes |
| Proto.EntryBuilder.PutFields | src/main/java/com/exactpro/th2/util/MessageComparator.java:199 | only the children change: the child under the key is added or replaced |
| MessageComparatorService.ConvertToProto | src/main/java/com/exactpro/th2/utility/MessageComparatorService.java:146-162 | null gives null. PASSED, FAILED and NA give the same-named entry status. Any other status throws IllegalArgumentException |
| MessageComparatorService.EntryAsWritten | src/main/java/com/exactpro/th2/utility/MessageComparatorService.java:164-172 | as written, conversion succeeds exactly when every node below has a non-null expected rendering, a non-null actual value and a non-null handled status. The result's second rendering is the actual value's string form with no HTML formatting. Type, status and keys are mirrored as in the newer version |
| MessageComparatorService.PutAllAsWritten | src/main/java/com/exactpro/th2/utility/MessageComparatorService.java:180-185 | as written, putting sub-entries succeeds exactly when every remaining sub-result converts, and the keys become the old keys plus the remaining names |
| MessageComparatorService.ConvertToComparisonEntry | src/main/java/com/exactpro/th2/utility/MessageComparatorService.java:164-172 | the builder chain setFirst, setSecond, setStatus, setType, then the sub-entries, gives exactly EntryAsWritten, including the NullPointerException a null reaching a setter throws |
| MessageComparatorService.PutSubComparisons | src/main/java/com/exactpro/th2/utility/MessageComparatorService.java:180-185 | the forEach loop of putFields leaves the builder's other fields alone and its children equal to PutAllAsWritten from the old children, or throws its exception |
| MessageComparatorService.NullStatusThrowsAsWritten | src/main/java/com/exactpro/th2/utility/MessageComparatorService.java:168 | a node with a null status makes the conversion as written throw NullPointerException; the corrected conversion leaves its status unset |
| MessageComparatorService.NullActualThrowsAsWritten | src/main/java/com/exactpro/th2/utility/MessageComparatorService.java:167 | a node with a null actual value makes the conversion as written throw NullPointerException; the corrected conversion leaves its second rendering unset |
| MessageComparatorService.EntryOf | src/main/java/com/exactpro/th2/utility/MessageComparatorService.java:164-172 | corrected conversion succeeds exactly when every node below has a non-null expected rendering and a null or handled status. Second is the actual value's string form, or unset when null. Type is COLLECTION exactly when there are sub-results. Status is set exactly when non-null, under the same name. Keys are exactly the sub-result names |
| MessageComparatorService.PutAll | src/main/java/com/exactpro/th2/utility/MessageComparatorService.java:180-185 | with the corrected conversion, putting sub-entries succeeds exactly when every remaining sub-result converts, and the keys become the old keys plus the remaining names |
| MessageComparatorService.CorrectionAgreesWithoutNulls | src/main/java/com/exactpro/th2/utility/MessageComparatorService.java:164-172 | on a tree where no node has a null status or a null actual value, the corrected conversion and the conversion as written give the same entry or the same exception |
| MessageComparatorService.CorrectionAgreesWithoutNullsFrom | src/main/java/com/exactpro/th2/utility/MessageComparatorService.java:180-185 | the same agreement for putting the sub-entries of such a tree |
| MessageComparatorService.PutAllValues | src/main/java/com/exactpro/th2/utility/MessageComparatorService.java:180-185 | after the puts, the entry under a name is the conversion of the last sub-result with that name; other names keep their old entry |
| MessageComparatorService.EntryChildren | src/main/java/com/exactpro/th2/utility/MessageComparatorService.java:180-185 | a converted entry has a child under a name exactly when the source node has a sub-result of that name, and that child is the sub-result's conversion |
| MessageComparatorService.EntryMirrorsTree | src/main/java/com/exactpro/th2/utility/MessageComparatorService.java:164-185 | for every path of names, the entry tree has a node exactly where the result tree has one, and each is that node's conversion |
| MessageComparatorService.AsWrittenHasNoNulls | src/main/java/com/exactpro/th2/utility/MessageComparatorService.java:164-172 | a tree that converts as written has no null status and no null actual value at any node |
| MessageComparatorService.PutAllAsWrittenValues | src/main/java/com/exactpro/th2/utility/MessageComparatorService.java:180-185 | after putSubComparisons as written, there is an entry under a name exactly when a sub-result has that name, and it is that sub-result's conversion as written |
| MessageComparatorService.AsWrittenChildren | src/main/java/com/exactpro/th2/utility/MessageComparatorService.java:164-185 | an entry converted as written has a child under a name exactly when the node has a sub-result of that name, and that child is the sub-result's own conversion as written |
| MessageComparatorService.AsWrittenMirrorsTree | src/main/java/com/exactpro/th2/utility/MessageComparatorService.java:164-185 | for every path of names, the tree converted as written has a node exactly where the result tree has one; each is that node's conversion as written and carries its type, status, actual value and keys |
| MessageComparatorService.Convert | src/main/java/com/exactpro/th2/utility/MessageComparatorService.java:127-134 | the sub-entries are put as written. The answer succeeds exactly when every sub-result converts as written and the rollup is a handled non-null status. When the children convert, a null rollup reaches setStatus and throws NullPointerException. Ids are copied from first and second. The root has only the rollup's same-named status and children that are the sub-results' conversions as written |
| MessageComparatorService.NullSubResultFailsAnswer | src/main/java/com/exactpro/th2/utility/MessageComparatorService.java:127-134 | a sub-result with a null status or a null actual value makes the answer for the pair fail, because putSubComparisons runs the conversion as written |
| MessageComparatorService.CompareTask | src/main/java/com/exactpro/th2/utility/MessageComparatorService.java:109-144 | the first message's conversion failure, then the second's, fails the task. Otherwise the library runs as compare(second, first) with default settings. The task succeeds exactly when Convert does, and the ids are copied in task order |
| MessageComparatorService.IgnoreListNeverConsulted | src/main/java/com/exactpro/th2/utility/MessageComparatorService.java:136-138 | replacing a task's settings by any others leaves its answer unchanged: the ignore list is never read |
| MessageComparatorService.CompareMessageVsMessage | src/main/java/com/exactpro/th2/utility/MessageComparatorService.java:62-84 | the response succeeds exactly when every task, converted as written, does, and then has one result per task in task order. Otherwise it fails with the first failing task's own error, since the end handler only logs |
| MessageComparatorService.CompareFilterVsMessages | src/main/java/com/exactpro/th2/utility/MessageComparatorService.java:57-60 | every request fails with UNIMPLEMENTED |
| ExampleTask.TestTaskIgnoredFields | src/test/java/com/exactpro/th2/utility/MessageComparatorServiceTest.java:47-59 | for the test's task, the newer service tells the library to ignore exactly {"IgnoredField"}. With any library, the older service answers the test's task exactly as it answers the same task with an empty ignore list |

## Findings

| source | as written | input that shows it | evidently intended | confidence | as-written member | corrected member |
|---|---|---|---|---|---|---|
| src/main/java/com/exactpro/th2/utility/MessageComparatorService.java:168 | `setStatus(convertToProto(status))` passes on the null that convertToProto returns for a null status. The generated protobuf setter throws NullPointerException on null | any sub-result whose status is null | the status is left unset. convertToProto is marked nullable and returns null on purpose, and the newer version (util/MessageComparator.java:185-187) checks for null before calling the setter | not executed; rests on protobuf-java's generated setters rejecting null | MessageComparatorService.NullStatusThrowsAsWritten | MessageComparatorService.EntryOf |
| src/main/java/com/exactpro/th2/utility/MessageComparatorService.java:167 | `setSecond(Objects.toString(actual, null))` passes null to the setter when the actual value is null, and the setter throws NullPointerException | any sub-result whose actual value is null, such as a field absent from the actual message | the second rendering is left unset | not executed; rests on protobuf-java's generated setters rejecting null | MessageComparatorService.NullActualThrowsAsWritten | MessageComparatorService.EntryOf |

`MessageComparatorService.CorrectionAgreesWithoutNulls` proves that the two
conversions differ only on such inputs. The older service's `Convert`,
`CompareTask` and `CompareMessageVsMessage` follow the code and use the
conversion as written. So a sub-result with a null status or a null actual
value fails the whole batch there, as it does in the service. The corrected
conversion is stated and proved on its own (`EntryOf`, `PutAll`,
`PutAllValues`, `EntryChildren`, `EntryMirrorsTree`). The model has no
batch built on it.

## Left out

- The library's comparison walk, ignore handling and status rollup are not
  modelled. The same goes for `Formatter.formatExpected`, `formatForHtml` and
  `ProtoToIMessageConverter`. Their code is not in the repository, so they are
  uninterpreted functions of `Sailfish.Library`. Nothing is claimed about how
  fields are matched or how statuses roll up.
- Exceptions thrown inside those library calls are not modelled. The one
  exception is the converter, which may fail. A null result from
  `getStatusType`, `formatExpected` or `formatForHtml` is modelled.
- The message id the converter puts in a `MessageWrapper` is not related to the
  wire message's metadata id, because that is the converter's business. The
  answer's ids are proved equal to the wrappers' ids.
- The constant `checkGroupsOrder = false` argument of the library's `compare`
  is dropped. Every library setting other than the ignored fields is dropped
  too, because the service never sets them.
- Logging, the request-start handler and RxJava scheduling are not modelled.
  Only the sequential map over tasks is kept.
- In the newer version, the error the end handler rethrows inside `doOnEvent`
  is modelled as `Composite(original, Runtime(original))`. Further details of
  RxJava's exception types are not modelled.
- Unset protobuf fields are `None`. Proto3 reads them as an empty string or
  the zero enum value, and that is not modelled.
- The two versions use two generated protobuf packages of the same shape.
  `Proto` models that shape once.
- Both `MicroserviceMain` classes are left out: the gRPC server lifecycle,
  shutdown hooks, locks and `System.exit`. They are process plumbing.
