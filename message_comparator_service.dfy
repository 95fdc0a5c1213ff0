/**
 * The older comparison service of the `utility` package
 * (MessageComparatorService.java). Same pipeline as MessageComparator, with
 * three differences: the library always runs with default settings, the
 * actual value is rendered without HTML formatting, and convertToProto
 * answers null for a null status instead of throwing.
 *
 * As written, a node whose status or actual value is null makes a protobuf
 * setter throw NullPointerException (EntryAsWritten), and the batch runs that
 * conversion. The evidently intended conversion leaves those fields unset
 * (EntryOf); CorrectionAgreesWithoutNulls shows the two agree on every tree
 * without such nulls.
 */
module MessageComparatorService {
  import opened Wrappers
  import opened Exceptions
  import Proto
  import opened Sailfish
  import Pipeline

  /** MessagePair: the two converted messages; the task's settings are not kept. */
  datatype MessagePair = MessagePair(first: MessageWrapper, second: MessageWrapper)

  datatype ComparisonMessagesResult = ComparisonMessagesResult(pair: MessagePair, comparisonResult: ComparisonResult)

  /** MessagePair.from: converts the first message, then the second. */
  function MessagePairFrom(lib: Library, task: Proto.CompareMessageVsMessageTask): Result<MessagePair, Error>
  {
    match lib.fromProtoMessage(task.first)
    case Failure(reason) => Failure(ConversionFailed(reason))
    case Success(first) =>
      match lib.fromProtoMessage(task.second)
      case Failure(reason) => Failure(ConversionFailed(reason))
      case Success(second) => Success(MessagePair(first, second))
  }

  /** compare: compare(second, first) with a fresh ComparatorSettings. */
  function Compare(lib: Library, pair: MessagePair): ComparisonMessagesResult
  {
    ComparisonMessagesResult(pair, lib.compare(pair.second, pair.first, DefaultSettings))
  }

  /** convertToProto: null gives null; the three handled statuses the same-named entry status; any other throws. */
  function ConvertToProto(statusType: Option<StatusType>): (r: Result<Option<Proto.EntryStatus>, Error>)
    ensures r.Success? <==> statusType.None? || statusType.value.Handled()
    ensures r.Success? ==> (r.value.None? <==> statusType.None?)
    ensures r.Success? && r.value.Some? ==> r.value.value.Name() == statusType.value.Name()
    ensures r.Failure? ==> r.error.IllegalArgument?
  {
    match statusType
    case None => Success(None)
    case Some(PASSED) => Success(Some(Proto.PASSED))
    case Some(FAILED) => Success(Some(Proto.FAILED))
    case Some(NA) => Success(Some(Proto.NA))
    case Some(Unhandled(name)) => Failure(IllegalArgument("Unsupportable status type '" + name + "'"))
  }

  /** What an entry built for node `r` carries. */
  predicate NodeMirrors(lib: Library, r: ComparisonResult, e: Proto.ComparisonEntry)
  {
    && e.first == lib.formatExpected(r)
    && e.second == r.actual
    && e.entryType == Some(if HasResults(r) then Proto.COLLECTION else Proto.FIELD)
    && (e.status.Some? <==> r.status.Some?)
    && (e.status.Some? ==> e.status.value.Name() == r.status.value.Name())
    && e.fields.Keys == NameSet(r.results)
  }

  // ---------------------------------------------------------------------------
  // The conversion as written

  /** A node and its descendants convert as written: expected rendering, actual value and status all non-null, status handled. */
  predicate ConvertibleAsWritten(lib: Library, r: ComparisonResult)
    decreases r
  {
    && lib.formatExpected(r).Some?
    && r.actual.Some?
    && r.status.Some? && r.status.value.Handled()
    && forall i | 0 <= i < |r.results| :: ConvertibleAsWritten(lib, r.results[i].1)
  }

  /** convertToComparisonEntry as written: null is handed to setSecond and setStatus as it comes. */
  function EntryAsWritten(lib: Library, r: ComparisonResult): (e: Result<Proto.ComparisonEntry, Error>)
    ensures e.Success? <==> ConvertibleAsWritten(lib, r)
    ensures e.Success? ==> NodeMirrors(lib, r, e.value) && e.value.status.Some?
    ensures e.Failure? ==> e.error.NullPointer? || e.error.IllegalArgument?
    decreases r, 1
  {
    match lib.formatExpected(r)
    case None => Failure(NullPointer)
    case Some(first) =>
      match r.actual
      case None => Failure(NullPointer)
      case Some(second) =>
        match ConvertToProto(r.status)
        case Failure(e) => Failure(e)
        case Success(None) => Failure(NullPointer)
        case Success(Some(status)) =>
          var entryType := if HasResults(r) then Proto.COLLECTION else Proto.FIELD;
          var built := Proto.ComparisonEntry(Some(first), Some(second), Some(status), Some(entryType), map[]);
          match PutAllAsWritten(lib, r, 0, built.fields)
          case Failure(e) => Failure(e)
          case Success(fields) =>
            assert r.results[0..] == r.results;
            Success(built.(fields := fields))
  }

  /** putSubComparisons as written, from index `i` on. */
  function PutAllAsWritten(lib: Library, parent: ComparisonResult, i: nat, acc: map<string, Proto.ComparisonEntry>)
    : (m: Result<map<string, Proto.ComparisonEntry>, Error>)
    requires i <= |parent.results|
    ensures m.Success? <==> forall j | i <= j < |parent.results| :: ConvertibleAsWritten(lib, parent.results[j].1)
    ensures m.Success? ==> m.value.Keys == acc.Keys + NameSet(parent.results[i..])
    ensures m.Failure? ==> m.error.NullPointer? || m.error.IllegalArgument?
    decreases parent, 0, |parent.results| - i
  {
    if i == |parent.results| then Success(acc)
    else
      var (name, sub) := parent.results[i];
      NameSetSplit(parent.results, i);
      match EntryAsWritten(lib, sub)
      case Failure(e) => Failure(e)
      case Success(child) => PutAllAsWritten(lib, parent, i + 1, acc[name := child])
  }

  /** convertToComparisonEntry: the builder chain setFirst, setSecond, setStatus, setType, then the sub-entries. */
  method ConvertToComparisonEntry(lib: Library, r: ComparisonResult) returns (e: Result<Proto.ComparisonEntry, Error>)
    ensures e == EntryAsWritten(lib, r)
    decreases r, 1
  {
    var builder := new Proto.EntryBuilder();
    var thrown := builder.SetFirst(lib.formatExpected(r));
    if thrown.Some? {
      return Failure(thrown.value);
    }
    thrown := builder.SetSecond(r.actual);
    if thrown.Some? {
      return Failure(thrown.value);
    }
    var status := ConvertToProto(r.status);
    if status.Failure? {
      return Failure(status.error);
    }
    thrown := builder.SetStatus(status.value);
    if thrown.Some? {
      return Failure(thrown.value);
    }
    builder.SetType(if HasResults(r) then Proto.COLLECTION else Proto.FIELD);
    thrown := PutSubComparisons(lib, builder, r);
    if thrown.Some? {
      return Failure(thrown.value);
    }
    return Success(builder.Build());
  }

  /** putSubComparisons: puts the converted sub-results into the builder, in iteration order. */
  method PutSubComparisons(lib: Library, builder: Proto.EntryBuilder, r: ComparisonResult)
    returns (thrown: Option<Error>)
    modifies builder
    ensures thrown.None? <==> PutAllAsWritten(lib, r, 0, old(builder.fields)).Success?
    ensures thrown.Some? ==> thrown.value == PutAllAsWritten(lib, r, 0, old(builder.fields)).error
    ensures thrown.None? ==>
      builder.Build() == old(builder.Build()).(fields := PutAllAsWritten(lib, r, 0, old(builder.fields)).value)
    decreases r, 0
  {
    if HasResults(r) {
      var i := 0;
      while i < |r.results|
        invariant 0 <= i <= |r.results|
        invariant builder.Build() == old(builder.Build()).(fields := builder.fields)
        invariant PutAllAsWritten(lib, r, i, builder.fields) == PutAllAsWritten(lib, r, 0, old(builder.fields))
      {
        var (name, sub) := r.results[i];
        var child := ConvertToComparisonEntry(lib, sub);
        if child.Failure? {
          return Some(child.error);
        }
        builder.PutFields(name, child.value);
        i := i + 1;
      }
    }
    return None;
  }

  /** A node the library left without a status makes the conversion as written throw, where the corrected one leaves the status unset. */
  lemma NullStatusThrowsAsWritten(lib: Library, r: ComparisonResult)
    requires lib.formatExpected(r).Some? && r.actual.Some? && r.status.None?
    ensures EntryAsWritten(lib, r) == Failure(NullPointer)
    ensures Convertible(lib, r) ==> EntryOf(lib, r).Success? && EntryOf(lib, r).value.status.None?
  {
  }

  /** A node whose actual value is null makes the conversion as written throw, where the corrected one leaves the second rendering unset. */
  lemma NullActualThrowsAsWritten(lib: Library, r: ComparisonResult)
    requires lib.formatExpected(r).Some? && r.actual.None?
    ensures EntryAsWritten(lib, r) == Failure(NullPointer)
    ensures Convertible(lib, r) ==> EntryOf(lib, r).Success? && EntryOf(lib, r).value.second.None?
  {
  }

  // ---------------------------------------------------------------------------
  // The corrected conversion

  /** A node and its descendants convert: expected rendering non-null, status null or handled. */
  predicate Convertible(lib: Library, r: ComparisonResult)
    decreases r
  {
    && lib.formatExpected(r).Some?
    && (r.status.None? || r.status.value.Handled())
    && forall i | 0 <= i < |r.results| :: Convertible(lib, r.results[i].1)
  }

  /** convertToComparisonEntry as evidently intended: a null actual value or status leaves that field unset. */
  function EntryOf(lib: Library, r: ComparisonResult): (e: Result<Proto.ComparisonEntry, Error>)
    ensures e.Success? <==> Convertible(lib, r)
    ensures e.Success? ==> NodeMirrors(lib, r, e.value)
    ensures e.Failure? ==> e.error.NullPointer? || e.error.IllegalArgument?
    decreases r, 1
  {
    match lib.formatExpected(r)
    case None => Failure(NullPointer)
    case Some(first) =>
      match ConvertToProto(r.status)
      case Failure(e) => Failure(e)
      case Success(status) =>
        var entryType := if HasResults(r) then Proto.COLLECTION else Proto.FIELD;
        var built := Proto.ComparisonEntry(Some(first), r.actual, status, Some(entryType), map[]);
        match PutAll(lib, r, 0, built.fields)
        case Failure(e) => Failure(e)
        case Success(fields) =>
          assert r.results[0..] == r.results;
          Success(built.(fields := fields))
  }

  /** putSubComparisons with the corrected conversion, from index `i` on. */
  function PutAll(lib: Library, parent: ComparisonResult, i: nat, acc: map<string, Proto.ComparisonEntry>)
    : (m: Result<map<string, Proto.ComparisonEntry>, Error>)
    requires i <= |parent.results|
    ensures m.Success? <==> forall j | i <= j < |parent.results| :: Convertible(lib, parent.results[j].1)
    ensures m.Success? ==> m.value.Keys == acc.Keys + NameSet(parent.results[i..])
    ensures m.Failure? ==> m.error.NullPointer? || m.error.IllegalArgument?
    decreases parent, 0, |parent.results| - i
  {
    if i == |parent.results| then Success(acc)
    else
      var (name, sub) := parent.results[i];
      NameSetSplit(parent.results, i);
      match EntryOf(lib, sub)
      case Failure(e) => Failure(e)
      case Success(child) => PutAll(lib, parent, i + 1, acc[name := child])
  }

  /** Every node of the tree has a status and an actual value. */
  predicate NoNulls(r: ComparisonResult)
    decreases r
  {
    && r.actual.Some?
    && r.status.Some?
    && forall i | 0 <= i < |r.results| :: NoNulls(r.results[i].1)
  }

  /** Where the library leaves no status and no actual value null, the corrected conversion is the one as written. */
  lemma {:induction false} CorrectionAgreesWithoutNulls(lib: Library, r: ComparisonResult)
    requires NoNulls(r)
    ensures EntryOf(lib, r) == EntryAsWritten(lib, r)
    decreases r, 1
  {
    CorrectionAgreesWithoutNullsFrom(lib, r, 0, map[]);
  }

  lemma {:induction false} CorrectionAgreesWithoutNullsFrom(lib: Library, parent: ComparisonResult, i: nat, acc: map<string, Proto.ComparisonEntry>)
    requires i <= |parent.results|
    requires forall j | 0 <= j < |parent.results| :: NoNulls(parent.results[j].1)
    ensures PutAll(lib, parent, i, acc) == PutAllAsWritten(lib, parent, i, acc)
    decreases parent, 0, |parent.results| - i
  {
    if i < |parent.results| {
      var (name, sub) := parent.results[i];
      CorrectionAgreesWithoutNulls(lib, sub);
      if EntryOf(lib, sub).Success? {
        CorrectionAgreesWithoutNullsFrom(lib, parent, i + 1, acc[name := EntryOf(lib, sub).value]);
      }
    }
  }

  /** Which sub-entry PutAll leaves under a name: that of the last sub-result so named, or what `acc` had. */
  lemma {:induction false} PutAllValues(lib: Library, parent: ComparisonResult, i: nat, acc: map<string, Proto.ComparisonEntry>, k: string)
    requires i <= |parent.results|
    requires PutAll(lib, parent, i, acc).Success?
    ensures var m := PutAll(lib, parent, i, acc).value;
      match Lookup(parent.results[i..], k)
      case Some(sub) => k in m && EntryOf(lib, sub) == Success(m[k])
      case None => (k in m <==> k in acc) && (k in acc ==> m[k] == acc[k])
    decreases |parent.results| - i
  {
    if i < |parent.results| {
      var (name, sub) := parent.results[i];
      assert parent.results[i..][1..] == parent.results[i + 1..];
      assert parent.results[i..][0] == (name, sub);
      PutAllValues(lib, parent, i + 1, acc[name := EntryOf(lib, sub).value], k);
    }
  }

  /** The sub-entry under each name is the conversion of the sub-result of that name, and there is no other. */
  lemma EntryChildren(lib: Library, r: ComparisonResult, k: string)
    requires EntryOf(lib, r).Success?
    ensures var e := EntryOf(lib, r).value;
      && (k in e.fields <==> Lookup(r.results, k).Some?)
      && (k in e.fields ==> EntryOf(lib, Lookup(r.results, k).value) == Success(e.fields[k]))
  {
    assert r.results[0..] == r.results;
    PutAllValues(lib, r, 0, map[], k);
  }

  /** The converted tree has a node exactly where the library's tree has one, and each is that node's conversion. */
  lemma {:induction false} EntryMirrorsTree(lib: Library, r: ComparisonResult, path: seq<string>)
    requires EntryOf(lib, r).Success?
    ensures var at := Proto.EntryAt(EntryOf(lib, r).value, path);
      && (at.Some? <==> ResultAt(r, path).Some?)
      && (at.Some? ==> EntryOf(lib, ResultAt(r, path).value) == Success(at.value))
      && (at.Some? ==> NodeMirrors(lib, ResultAt(r, path).value, at.value))
    decreases |path|
  {
    if path != [] {
      EntryChildren(lib, r, path[0]);
      match Lookup(r.results, path[0])
      case None =>
      case Some(sub) => EntryMirrorsTree(lib, sub, path[1..]);
    }
  }

  // ---------------------------------------------------------------------------
  // The children of the conversion as written

  /** A tree that converts as written has no null status and no null actual value anywhere. */
  lemma {:induction false} AsWrittenHasNoNulls(lib: Library, r: ComparisonResult)
    requires ConvertibleAsWritten(lib, r)
    ensures NoNulls(r)
    decreases r
  {
    forall i | 0 <= i < |r.results| ensures NoNulls(r.results[i].1) {
      AsWrittenHasNoNulls(lib, r.results[i].1);
    }
  }

  /** After putSubComparisons as written, the entry under each name is the conversion of the sub-result so named, and there is no other. */
  lemma PutAllAsWrittenValues(lib: Library, parent: ComparisonResult, k: string)
    requires PutAllAsWritten(lib, parent, 0, map[]).Success?
    ensures var m := PutAllAsWritten(lib, parent, 0, map[]).value;
      && (k in m <==> Lookup(parent.results, k).Some?)
      && (k in m ==> EntryAsWritten(lib, Lookup(parent.results, k).value) == Success(m[k]))
  {
    assert parent.results[0..] == parent.results;
    forall j | 0 <= j < |parent.results| ensures NoNulls(parent.results[j].1) {
      AsWrittenHasNoNulls(lib, parent.results[j].1);
    }
    CorrectionAgreesWithoutNullsFrom(lib, parent, 0, map[]);
    PutAllValues(lib, parent, 0, map[], k);
    match Lookup(parent.results, k)
    case None =>
    case Some(sub) =>
      var j :| 0 <= j < |parent.results| && parent.results[j] == (k, sub);
      CorrectionAgreesWithoutNulls(lib, sub);
  }

  /** The sub-entry under each name of an entry converted as written is that sub-result's own conversion as written. */
  lemma AsWrittenChildren(lib: Library, r: ComparisonResult, k: string)
    requires EntryAsWritten(lib, r).Success?
    ensures var e := EntryAsWritten(lib, r).value;
      && (k in e.fields <==> Lookup(r.results, k).Some?)
      && (k in e.fields ==> EntryAsWritten(lib, Lookup(r.results, k).value) == Success(e.fields[k]))
  {
    PutAllAsWrittenValues(lib, r, k);
  }

  /** The tree converted as written has a node exactly where the library's tree has one, and each is that node's conversion. */
  lemma {:induction false} AsWrittenMirrorsTree(lib: Library, r: ComparisonResult, path: seq<string>)
    requires EntryAsWritten(lib, r).Success?
    ensures var at := Proto.EntryAt(EntryAsWritten(lib, r).value, path);
      && (at.Some? <==> ResultAt(r, path).Some?)
      && (at.Some? ==> EntryAsWritten(lib, ResultAt(r, path).value) == Success(at.value))
      && (at.Some? ==> NodeMirrors(lib, ResultAt(r, path).value, at.value))
    decreases |path|
  {
    if path != [] {
      AsWrittenChildren(lib, r, path[0]);
      match Lookup(r.results, path[0])
      case None =>
      case Some(sub) => AsWrittenMirrorsTree(lib, sub, path[1..]);
    }
  }

  // ---------------------------------------------------------------------------
  // The answer for one task, and for a batch

  /** The root converts when all its sub-results convert as written and the rollup of the tree is a handled, non-null status. */
  predicate RootConvertible(lib: Library, r: ComparisonResult)
  {
    && (forall i | 0 <= i < |r.results| :: ConvertibleAsWritten(lib, r.results[i].1))
    && lib.getStatusType(r).Some?
    && lib.getStatusType(r).value.Handled()
  }

  /** The root entry carries only the sub-entries and the rolled-up status. */
  predicate RootMirrors(lib: Library, r: ComparisonResult, e: Proto.ComparisonEntry)
  {
    && e.first.None? && e.second.None? && e.entryType.None?
    && e.status.Some? && lib.getStatusType(r).Some?
    && e.status.value.Name() == lib.getStatusType(r).value.Name()
    && e.fields.Keys == NameSet(r.results)
    && forall k | k in e.fields ::
         Lookup(r.results, k).Some? && EntryAsWritten(lib, Lookup(r.results, k).value) == Success(e.fields[k])
  }

  /** The sub-entries putSubComparisons leaves at the root are the sub-results' conversions as written. */
  lemma RootChildren(lib: Library, r: ComparisonResult)
    requires PutAllAsWritten(lib, r, 0, map[]).Success?
    ensures var fields := PutAllAsWritten(lib, r, 0, map[]).value;
      forall k | k in fields ::
        Lookup(r.results, k).Some? && EntryAsWritten(lib, Lookup(r.results, k).value) == Success(fields[k])
  {
    forall k | k in PutAllAsWritten(lib, r, 0, map[]).value
      ensures Lookup(r.results, k).Some?
      ensures EntryAsWritten(lib, Lookup(r.results, k).value) == Success(PutAllAsWritten(lib, r, 0, map[]).value[k])
    {
      PutAllAsWrittenValues(lib, r, k);
    }
  }

  /**
   * convert: the answer for one pair, its sub-entries put as written. A null
   * rollup reaches setStatus as null and throws NullPointerException; an
   * unhandled one throws IllegalArgumentException.
   */
  function Convert(lib: Library, c: ComparisonMessagesResult): (r: Result<Proto.CompareMessageVsMessageResult, Error>)
    ensures r.Success? <==> RootConvertible(lib, c.comparisonResult)
    ensures r.Success? ==>
      && r.value.firstMessageId == c.pair.first.messageId
      && r.value.secondMessageId == c.pair.second.messageId
      && RootMirrors(lib, c.comparisonResult, r.value.comparisonResult)
    ensures PutAllAsWritten(lib, c.comparisonResult, 0, map[]).Success? && lib.getStatusType(c.comparisonResult).None? ==>
      r == Failure(NullPointer)
  {
    var result := c.comparisonResult;
    match PutAllAsWritten(lib, result, 0, map[])
    case Failure(e) => Failure(e)
    case Success(fields) =>
      match ConvertToProto(lib.getStatusType(result))
      case Failure(e) => Failure(e)
      case Success(None) => Failure(NullPointer)
      case Success(Some(status)) =>
        var root := Proto.EmptyEntry.(status := Some(status), fields := fields);
        assert result.results[0..] == result.results;
        RootChildren(lib, result);
        Success(Proto.CompareMessageVsMessageResult(c.pair.first.messageId, c.pair.second.messageId, root))
  }

  /** A sub-result with a null status or a null actual value fails the answer, as putSubComparisons throws on it. */
  lemma NullSubResultFailsAnswer(lib: Library, c: ComparisonMessagesResult, i: nat)
    requires i < |c.comparisonResult.results|
    requires c.comparisonResult.results[i].1.status.None? || c.comparisonResult.results[i].1.actual.None?
    ensures Convert(lib, c).Failure?
  {
  }

  /**
   * One task end to end: both messages converted (first, then second), the
   * library run as compare(second, first) with default settings, and the
   * answer built with the ids of first and second in task order.
   */
  function CompareTask(lib: Library, task: Proto.CompareMessageVsMessageTask): (r: Result<Proto.CompareMessageVsMessageResult, Error>)
    ensures var first, second := lib.fromProtoMessage(task.first), lib.fromProtoMessage(task.second);
      && (first.Failure? ==> r == Failure(ConversionFailed(first.error)))
      && (first.Success? && second.Failure? ==> r == Failure(ConversionFailed(second.error)))
      && (first.Success? && second.Success? ==>
            var result := lib.compare(second.value, first.value, DefaultSettings);
            && (r.Success? <==> RootConvertible(lib, result))
            && (r.Success? ==>
                  && r.value.firstMessageId == first.value.messageId
                  && r.value.secondMessageId == second.value.messageId
                  && RootMirrors(lib, result, r.value.comparisonResult)))
  {
    match MessagePairFrom(lib, task)
    case Failure(e) => Failure(e)
    case Success(pair) => Convert(lib, Compare(lib, pair))
  }

  /** The task's ignore list is never read: any other settings give the same answer. */
  lemma IgnoreListNeverConsulted(lib: Library, task: Proto.CompareMessageVsMessageTask, settings: Proto.ComparisonSettings)
    ensures CompareTask(lib, task.(settings := settings)) == CompareTask(lib, task)
  {
  }

  /** compareMessageVsMessage: one result per task, in task order; the first task that throws fails the response with its own error. */
  function CompareMessageVsMessage(lib: Library, tasks: seq<Proto.CompareMessageVsMessageTask>)
    : (r: Result<Proto.CompareMessageVsMessageResponse, Error>)
    ensures r.Success? <==> forall i | 0 <= i < |tasks| :: CompareTask(lib, tasks[i]).Success?
    ensures r.Success? ==>
      && |r.value.comparisonResults| == |tasks|
      && forall i | 0 <= i < |tasks| :: r.value.comparisonResults[i] == CompareTask(lib, tasks[i]).value
    ensures r.Failure? ==>
      exists i | 0 <= i < |tasks| ::
        && CompareTask(lib, tasks[i]).Failure?
        && r.error == CompareTask(lib, tasks[i]).error
        && forall j | 0 <= j < i :: CompareTask(lib, tasks[j]).Success?
  {
    match Pipeline.MapAll(t => CompareTask(lib, t), tasks)
    case Success(results) => Success(Proto.CompareMessageVsMessageResponse(results))
    case Failure(e) => Failure(e)
  }

  /** compareFilterVsMessages: left to the generated base class, which answers UNIMPLEMENTED for every request. */
  function CompareFilterVsMessages(request: Proto.CompareFilterVsMessagesRequest)
    : (r: Result<Proto.CompareFilterVsMessagesResponse, Error>)
    ensures r.Failure? && r.error == Unimplemented
  {
    Failure(Unimplemented)
  }
}
