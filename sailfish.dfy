/**
 * The comparison library the service calls into, as far as the service sees it:
 * its status enum, its result tree, its settings and its message wrapper. The
 * library's own code (the comparison walk, the status rollup, the formatters and
 * the wire-to-library converter) is not part of this model; `Library` hands
 * those in as uninterpreted functions.
 */
module Sailfish {
  import opened Wrappers
  import Proto

  /** The library's StatusType. `Unhandled` stands for every constant other than these three. */
  datatype StatusType = PASSED | FAILED | NA | Unhandled(name: string)
  {
    /** The constant's name, which is also what toString() gives. */
    function Name(): string
    {
      match this
      case PASSED => "PASSED"
      case FAILED => "FAILED"
      case NA => "NA"
      case Unhandled(n) => n
    }

    predicate Handled()
    {
      !Unhandled?
    }
  }

  /**
   * A node of the library's comparison result. `actual` is the actual value's
   * string form (null when the value is null); `results` lists the named
   * sub-results in the iteration order of the library's map.
   */
  datatype ComparisonResult = ComparisonResult(
    name: string,
    expected: Option<string>,
    actual: Option<string>,
    status: Option<StatusType>,
    results: seq<(string, ComparisonResult)>)

  /** hasResults() */
  predicate HasResults(r: ComparisonResult)
  {
    |r.results| > 0
  }

  /** The names of a list of sub-results. */
  function NameSet(rs: seq<(string, ComparisonResult)>): set<string>
  {
    set i | 0 <= i < |rs| :: rs[i].0
  }

  /** The names from index `i` on are the name at `i` and the names after it. */
  lemma NameSetSplit(rs: seq<(string, ComparisonResult)>, i: nat)
    requires i < |rs|
    ensures NameSet(rs[i..]) == {rs[i].0} + NameSet(rs[i + 1..])
  {
    forall n | n in NameSet(rs[i..]) ensures n in {rs[i].0} + NameSet(rs[i + 1..]) {
      var j :| 0 <= j < |rs[i..]| && rs[i..][j].0 == n;
      if j > 0 { assert rs[i + 1..][j - 1] == rs[i..][j]; }
    }
    forall n | n in NameSet(rs[i + 1..]) ensures n in NameSet(rs[i..]) {
      var j :| 0 <= j < |rs[i + 1..]| && rs[i + 1..][j].0 == n;
      assert rs[i..][j + 1] == rs[i + 1..][j];
    }
  }

  /** The sub-result under `k`; when a name repeats, the last one, as successive map puts leave it. */
  function Lookup(rs: seq<(string, ComparisonResult)>, k: string): (o: Option<ComparisonResult>)
    ensures o.Some? <==> k in NameSet(rs)
    ensures o.Some? ==> exists j :: 0 <= j < |rs| && rs[j] == (k, o.value)
  {
    if rs == [] then None
    else
      var later := Lookup(rs[1..], k);
      assert rs[0..] == rs;
      NameSetSplit(rs, 0);
      if later.Some? then
        var j :| 0 <= j < |rs[1..]| && rs[1..][j] == (k, later.value);
        assert rs[j + 1] == rs[1..][j];
        later
      else if rs[0].0 == k then Some(rs[0].1)
      else None
  }

  /** The sub-result reached by following a path of field names, if there is one. */
  function ResultAt(r: ComparisonResult, path: seq<string>): Option<ComparisonResult>
    decreases |path|
  {
    if path == [] then Some(r)
    else match Lookup(r.results, path[0])
      case None => None
      case Some(sub) => ResultAt(sub, path[1..])
  }

  /** The library's message, built from a wire message by the converter. */
  datatype IMessage = IMessage(name: string, fields: map<string, Proto.Value>)

  /** MessageWrapper: a library message together with the id of the wire message it came from. */
  datatype MessageWrapper = MessageWrapper(messageId: Proto.MessageId, message: IMessage)

  /** ComparatorSettings, reduced to the one setting the service touches. */
  datatype ComparatorSettings = ComparatorSettings(ignoredFields: set<string>)

  /** new ComparatorSettings(): nothing is ignored. */
  const DefaultSettings := ComparatorSettings({})

  /**
   * The library calls the service makes, as uninterpreted functions:
   *  - fromProtoMessage: ProtoToIMessageConverter.fromProtoMessage(message, false), which may throw;
   *  - compare: MessageComparator.compare(actual, expected, settings, false);
   *  - getStatusType: ComparisonUtil.getStatusType, the rollup of a result tree (may be null);
   *  - formatExpected: Formatter.formatExpected (may be null);
   *  - formatForHtml: Formatter.formatForHtml(text, special) (may be null).
   */
  datatype Library = Library(
    fromProtoMessage: Proto.Message -> Result<MessageWrapper, string>,
    compare: (MessageWrapper, MessageWrapper, ComparatorSettings) -> ComparisonResult,
    getStatusType: ComparisonResult -> Option<StatusType>,
    formatExpected: ComparisonResult -> Option<string>,
    formatForHtml: (Option<string>, bool) -> Option<string>)
}
