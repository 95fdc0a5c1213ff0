/**
 * The comparison service of the `util` package (MessageComparator.java):
 * each task's two messages are converted, compared by the library with the
 * task's ignore list, and the library's result tree is turned into a
 * ComparisonEntry tree; a batch answers task by task, in order.
 */
module MessageComparator {
  import opened Wrappers
  import opened Exceptions
  import Proto
  import opened Sailfish
  import Pipeline

  /** MessagePair: the two converted messages and the task's settings. */
  datatype MessagePair = MessagePair(first: MessageWrapper, second: MessageWrapper, comparisonSettings: Proto.ComparisonSettings)

  /** ComparisonMessagesResult: a pair together with the library's result for it. */
  datatype ComparisonMessagesResult = ComparisonMessagesResult(pair: MessagePair, comparisonResult: ComparisonResult)

  /** MessagePair.from: converts the first message, then the second, and keeps the settings. */
  function MessagePairFrom(lib: Library, task: Proto.CompareMessageVsMessageTask): Result<MessagePair, Error>
  {
    match lib.fromProtoMessage(task.first)
    case Failure(reason) => Failure(ConversionFailed(reason))
    case Success(first) =>
      match lib.fromProtoMessage(task.second)
      case Failure(reason) => Failure(ConversionFailed(reason))
      case Success(second) => Success(MessagePair(first, second, task.settings))
  }

  /** createSettings: the library settings whose ignored fields are the names of the task's ignore list. */
  function CreateSettings(protoSettings: Proto.ComparisonSettings): (s: ComparatorSettings)
    ensures forall n :: n in s.ignoredFields <==> n in protoSettings.ignoreFields
  {
    ComparatorSettings(set n | n in protoSettings.ignoreFields)
  }

  predicate Distinct(names: seq<string>)
  {
    forall i, j | 0 <= i < j < |names| :: names[i] != names[j]
  }

  /** A list's set of names is its head's name and the set of its tail's. */
  lemma NamesOfCons(names: seq<string>)
    requires names != []
    ensures (set n | n in names) == {names[0]} + (set n | n in names[1..])
  {
    forall n | n in names ensures n == names[0] || n in names[1..] {
      var i :| 0 <= i < |names| && names[i] == n;
      if i > 0 { assert names[1..][i - 1] == n; }
    }
  }

  /** A list is free of repetitions exactly when its head is not repeated in its tail and the tail is free of them. */
  lemma DistinctCons(names: seq<string>)
    requires names != []
    ensures Distinct(names) <==> names[0] !in names[1..] && Distinct(names[1..])
  {
    if names[0] !in names[1..] && Distinct(names[1..]) {
      forall i, j | 0 <= i < j < |names| ensures names[i] != names[j] {
        assert names[j] == names[1..][j - 1];
        if i > 0 { assert names[i] == names[1..][i - 1]; }
      }
    }
    if Distinct(names) {
      forall i, j | 0 <= i < j < |names[1..]| ensures names[1..][i] != names[1..][j] {
        assert names[1..][i] == names[i + 1] && names[1..][j] == names[j + 1];
      }
      forall k | 0 <= k < |names[1..]| ensures names[1..][k] != names[0] {
        assert names[1..][k] == names[k + 1];
      }
    }
  }

  /** Collecting a list into a set drops exactly its repetitions. */
  lemma {:induction false} NamesCardinality(names: seq<string>)
    ensures |(set n | n in names)| <= |names|
    ensures |(set n | n in names)| == |names| <==> Distinct(names)
    decreases |names|
  {
    if names != [] {
      NamesCardinality(names[1..]);
      NamesOfCons(names);
      DistinctCons(names);
      if names[0] in names[1..] {
        assert (set n | n in names) == (set n | n in names[1..]);
      }
    }
  }

  /** The ignored set is no larger than the ignore list, and as large exactly when the list repeats no name. */
  lemma CreateSettingsCollapsesDuplicates(protoSettings: Proto.ComparisonSettings)
    ensures |CreateSettings(protoSettings).ignoredFields| <= |protoSettings.ignoreFields|
    ensures |CreateSettings(protoSettings).ignoredFields| == |protoSettings.ignoreFields| <==> Distinct(protoSettings.ignoreFields)
  {
    NamesCardinality(protoSettings.ignoreFields);
  }

  /** compare: the library runs with the second message as its first argument and the first as its second. */
  function Compare(lib: Library, pair: MessagePair): ComparisonMessagesResult
  {
    ComparisonMessagesResult(pair, lib.compare(pair.second, pair.first, CreateSettings(pair.comparisonSettings)))
  }

  /** convertToProto: the three handled statuses map to the same-named entry status; null and any other status throw. */
  function ConvertToProto(statusType: Option<StatusType>): (r: Result<Proto.EntryStatus, Error>)
    ensures r.Success? <==> statusType.Some? && statusType.value.Handled()
    ensures r.Success? ==> r.value.Name() == statusType.value.Name()
    ensures statusType.None? ==> r == Failure(IllegalArgument("Status can't be null"))
    ensures statusType.Some? && !statusType.value.Handled() ==> r.Failure? && r.error.IllegalArgument?
  {
    match statusType
    case None => Failure(IllegalArgument("Status can't be null"))
    case Some(PASSED) => Success(Proto.PASSED)
    case Some(FAILED) => Success(Proto.FAILED)
    case Some(NA) => Success(Proto.NA)
    case Some(Unhandled(name)) => Failure(IllegalArgument("Unsupportable status type '" + name + "'"))
  }

  /** A node and all its descendants convert without throwing: renderings non-null, statuses null or handled. */
  predicate Convertible(lib: Library, r: ComparisonResult)
    decreases r
  {
    && lib.formatExpected(r).Some?
    && lib.formatForHtml(r.actual, false).Some?
    && (r.status.None? || r.status.value.Handled())
    && forall i | 0 <= i < |r.results| :: Convertible(lib, r.results[i].1)
  }

  /** What an entry built for node `r` carries. */
  predicate NodeMirrors(lib: Library, r: ComparisonResult, e: Proto.ComparisonEntry)
  {
    && e.first == lib.formatExpected(r)
    && e.second == lib.formatForHtml(r.actual, false)
    && e.entryType == Some(if HasResults(r) then Proto.COLLECTION else Proto.FIELD)
    && (e.status.Some? <==> r.status.Some?)
    && (e.status.Some? ==> e.status.value.Name() == r.status.value.Name())
    && e.fields.Keys == NameSet(r.results)
  }

  /** The entry convertToComparisonEntry builds for one node (specification of the method below). */
  function EntryOf(lib: Library, r: ComparisonResult): (e: Result<Proto.ComparisonEntry, Error>)
    ensures e.Success? <==> Convertible(lib, r)
    ensures e.Success? ==> NodeMirrors(lib, r, e.value)
    ensures e.Failure? ==> e.error.NullPointer? || e.error.IllegalArgument?
    decreases r, 1
  {
    match lib.formatExpected(r)
    case None => Failure(NullPointer)
    case Some(first) =>
      match lib.formatForHtml(r.actual, false)
      case None => Failure(NullPointer)
      case Some(second) =>
        var entryType := if HasResults(r) then Proto.COLLECTION else Proto.FIELD;
        if r.status.Some? && ConvertToProto(r.status).Failure? then
          Failure(ConvertToProto(r.status).error)
        else
          var status := if r.status.None? then None else Some(ConvertToProto(r.status).value);
          var built := Proto.ComparisonEntry(Some(first), Some(second), status, Some(entryType), map[]);
          match PutAll(lib, r, 0, built.fields)
          case Failure(e) => Failure(e)
          case Success(fields) =>
            assert r.results[0..] == r.results;
            Success(built.(fields := fields))
  }

  /** The sub-entries convertAndPutSubComparisons adds to `acc` for the sub-results of `parent` from index `i` on. */
  function PutAll(lib: Library, parent: ComparisonResult, i: nat, acc: map<string, Proto.ComparisonEntry>)
    : (m: Result<map<string, Proto.ComparisonEntry>, Error>)
    requires i <= |parent.results|
    ensures m.Success? <==> forall j | i <= j < |parent.results| :: Convertible(lib, parent.results[j].1)
    ensures m.Success? ==> m.value.Keys == acc.Keys + NameSet(parent.results[i..])
    ensures m.Failure? ==> m.error.NullPointer? || m.error.IllegalArgument?
    decreases parent, 0, |parent.results| - i
  {
    if i == |parent.results| then Success(acc)
    else
      var (name, sub) := parent.results[i];
      NameSetSplit(parent.results, i);
      match EntryOf(lib, sub)
      case Failure(e) => Failure(e)
      case Success(child) => PutAll(lib, parent, i + 1, acc[name := child])
  }

  /** convertToComparisonEntry: fills a fresh builder field by field, then its sub-entries. */
  method ConvertToComparisonEntry(lib: Library, r: ComparisonResult) returns (e: Result<Proto.ComparisonEntry, Error>)
    ensures e == EntryOf(lib, r)
    decreases r, 1
  {
    var builder := new Proto.EntryBuilder();
    var thrown := builder.SetFirst(lib.formatExpected(r));
    if thrown.Some? {
      return Failure(thrown.value);
    }
    thrown := builder.SetSecond(lib.formatForHtml(r.actual, false));
    if thrown.Some? {
      return Failure(thrown.value);
    }
    builder.SetType(if HasResults(r) then Proto.COLLECTION else Proto.FIELD);
    if r.status.Some? {
      var status := ConvertToProto(r.status);
      if status.Failure? {
        return Failure(status.error);
      }
      thrown := builder.SetStatus(Some(status.value));
    }
    thrown := ConvertAndPutSubComparisons(lib, builder, r);
    if thrown.Some? {
      return Failure(thrown.value);
    }
    return Success(builder.Build());
  }

  /** convertAndPutSubComparisons: puts the converted sub-results into the builder, in iteration order. */
  method ConvertAndPutSubComparisons(lib: Library, builder: Proto.EntryBuilder, r: ComparisonResult)
    returns (thrown: Option<Error>)
    modifies builder
    ensures thrown.None? <==> PutAll(lib, r, 0, old(builder.fields)).Success?
    ensures thrown.Some? ==> thrown.value == PutAll(lib, r, 0, old(builder.fields)).error
    ensures thrown.None? ==> builder.Build() == old(builder.Build()).(fields := PutAll(lib, r, 0, old(builder.fields)).value)
    decreases r, 0
  {
    if HasResults(r) {
      var i := 0;
      while i < |r.results|
        invariant 0 <= i <= |r.results|
        invariant builder.Build() == old(builder.Build()).(fields := builder.fields)
        invariant PutAll(lib, r, i, builder.fields) == PutAll(lib, r, 0, old(builder.fields))
      {
        var (name, sub) := r.results[i];
        var child := ConvertToComparisonEntry(lib, sub);
        if child.Failure? {
          return Some(child.error);
        }
        builder.PutFields(name, child.value);
        i := i + 1;
      }
    }
    return None;
  }

  /** Which sub-entry PutAll leaves under a name: that of the last sub-result so named, or what `acc` had. */
  lemma {:induction false} PutAllValues(lib: Library, parent: ComparisonResult, i: nat, acc: map<string, Proto.ComparisonEntry>, k: string)
    requires i <= |parent.results|
    requires PutAll(lib, parent, i, acc).Success?
    ensures var m := PutAll(lib, parent, i, acc).value;
      match Lookup(parent.results[i..], k)
      case Some(sub) => k in m && EntryOf(lib, sub) == Success(m[k])
      case None => (k in m <==> k in acc) && (k in acc ==> m[k] == acc[k])
    decreases |parent.results| - i
  {
    if i < |parent.results| {
      var (name, sub) := parent.results[i];
      assert parent.results[i..][1..] == parent.results[i + 1..];
      assert parent.results[i..][0] == (name, sub);
      PutAllValues(lib, parent, i + 1, acc[name := EntryOf(lib, sub).value], k);
    }
  }

  /** The sub-entry under each name is the conversion of the sub-result of that name, and there is no other. */
  lemma EntryChildren(lib: Library, r: ComparisonResult, k: string)
    requires EntryOf(lib, r).Success?
    ensures var e := EntryOf(lib, r).value;
      && (k in e.fields <==> Lookup(r.results, k).Some?)
      && (k in e.fields ==> EntryOf(lib, Lookup(r.results, k).value) == Success(e.fields[k]))
  {
    assert r.results[0..] == r.results;
    PutAllValues(lib, r, 0, map[], k);
  }

  /** The converted tree has a node exactly where the library's tree has one, and each is that node's conversion. */
  lemma {:induction false} EntryMirrorsTree(lib: Library, r: ComparisonResult, path: seq<string>)
    requires EntryOf(lib, r).Success?
    ensures var at := Proto.EntryAt(EntryOf(lib, r).value, path);
      && (at.Some? <==> ResultAt(r, path).Some?)
      && (at.Some? ==> EntryOf(lib, ResultAt(r, path).value) == Success(at.value))
      && (at.Some? ==> NodeMirrors(lib, ResultAt(r, path).value, at.value))
    decreases |path|
  {
    if path != [] {
      EntryChildren(lib, r, path[0]);
      match Lookup(r.results, path[0])
      case None =>
      case Some(sub) => EntryMirrorsTree(lib, sub, path[1..]);
    }
  }

  /** The root converts when all its sub-results do and the rollup of the tree is a handled status. */
  predicate RootConvertible(lib: Library, r: ComparisonResult)
  {
    && (forall i | 0 <= i < |r.results| :: Convertible(lib, r.results[i].1))
    && lib.getStatusType(r).Some?
    && lib.getStatusType(r).value.Handled()
  }

  /** The root entry carries only the sub-entries and the rolled-up status. */
  predicate RootMirrors(lib: Library, r: ComparisonResult, e: Proto.ComparisonEntry)
  {
    && e.first.None? && e.second.None? && e.entryType.None?
    && e.status.Some? && lib.getStatusType(r).Some?
    && e.status.value.Name() == lib.getStatusType(r).value.Name()
    && e.fields.Keys == NameSet(r.results)
    && forall k | k in e.fields ::
         Lookup(r.results, k).Some? && EntryOf(lib, Lookup(r.results, k).value) == Success(e.fields[k])
  }

  /** convert: the answer for one pair, with the two message ids copied from the first and the second message. */
  function Convert(lib: Library, c: ComparisonMessagesResult): (r: Result<Proto.CompareMessageVsMessageResult, Error>)
    ensures r.Success? <==> RootConvertible(lib, c.comparisonResult)
    ensures r.Success? ==>
      && r.value.firstMessageId == c.pair.first.messageId
      && r.value.secondMessageId == c.pair.second.messageId
      && RootMirrors(lib, c.comparisonResult, r.value.comparisonResult)
    ensures PutAll(lib, c.comparisonResult, 0, map[]).Success? && lib.getStatusType(c.comparisonResult).None? ==>
      r == Failure(IllegalArgument("Status can't be null"))
    ensures r.Failure? ==> r.error.NullPointer? || r.error.IllegalArgument?
  {
    var result := c.comparisonResult;
    match PutAll(lib, result, 0, map[])
    case Failure(e) => Failure(e)
    case Success(fields) =>
      match ConvertToProto(lib.getStatusType(result))
      case Failure(e) => Failure(e)
      case Success(status) =>
        var root := Proto.EmptyEntry.(status := Some(status), fields := fields);
        assert result.results[0..] == result.results;
        assert forall k | k in fields ::
          Lookup(result.results, k).Some? && EntryOf(lib, Lookup(result.results, k).value) == Success(fields[k])
        by {
          forall k | k in fields
            ensures Lookup(result.results, k).Some? && EntryOf(lib, Lookup(result.results, k).value) == Success(fields[k])
          {
            PutAllValues(lib, result, 0, map[], k);
          }
        }
        Success(Proto.CompareMessageVsMessageResult(c.pair.first.messageId, c.pair.second.messageId, root))
  }

  /**
   * One task end to end: both messages converted (first, then second), the
   * library run as compare(second, first) with the task's ignore list, and
   * the answer built with the ids of first and second in task order.
   */
  function CompareTask(lib: Library, task: Proto.CompareMessageVsMessageTask): (r: Result<Proto.CompareMessageVsMessageResult, Error>)
    ensures var first, second := lib.fromProtoMessage(task.first), lib.fromProtoMessage(task.second);
      && (first.Failure? ==> r == Failure(ConversionFailed(first.error)))
      && (first.Success? && second.Failure? ==> r == Failure(ConversionFailed(second.error)))
      && (first.Success? && second.Success? ==>
            var result := lib.compare(second.value, first.value, CreateSettings(task.settings));
            && (r.Success? <==> RootConvertible(lib, result))
            && (r.Success? ==>
                  && r.value.firstMessageId == first.value.messageId
                  && r.value.secondMessageId == second.value.messageId
                  && RootMirrors(lib, result, r.value.comparisonResult)))
  {
    match MessagePairFrom(lib, task)
    case Failure(e) => Failure(e)
    case Success(pair) => Convert(lib, Compare(lib, pair))
  }

  /**
   * compareMessageVsMessage: one result per task, in task order; the first
   * task that throws fails the whole response, and the end handler's rethrow
   * (a RuntimeException around it, raised inside doOnEvent) is added to it.
   */
  function CompareMessageVsMessage(lib: Library, tasks: seq<Proto.CompareMessageVsMessageTask>)
    : (r: Result<Proto.CompareMessageVsMessageResponse, Error>)
    ensures r.Success? <==> forall i | 0 <= i < |tasks| :: CompareTask(lib, tasks[i]).Success?
    ensures r.Success? ==>
      && |r.value.comparisonResults| == |tasks|
      && forall i | 0 <= i < |tasks| :: r.value.comparisonResults[i] == CompareTask(lib, tasks[i]).value
    ensures r.Failure? ==>
      exists i | 0 <= i < |tasks| ::
        && CompareTask(lib, tasks[i]).Failure?
        && r.error == Composite(CompareTask(lib, tasks[i]).error, Runtime(CompareTask(lib, tasks[i]).error))
        && forall j | 0 <= j < i :: CompareTask(lib, tasks[j]).Success?
  {
    match Pipeline.MapAll(t => CompareTask(lib, t), tasks)
    case Success(results) => Success(Proto.CompareMessageVsMessageResponse(results))
    case Failure(e) => Failure(Composite(e, Runtime(e)))
  }

  /** compareFilterVsMessages: left to the generated base class, which answers UNIMPLEMENTED for every request. */
  function CompareFilterVsMessages(request: Proto.CompareFilterVsMessagesRequest)
    : (r: Result<Proto.CompareFilterVsMessagesResponse, Error>)
    ensures r.Failure? && r.error == Unimplemented
  {
    Failure(Unimplemented)
  }
}
