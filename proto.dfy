/**
 * The wire messages of the comparison service: the messages a task carries,
 * the task itself, and the ComparisonEntry tree the service answers with.
 * A protobuf field that was never set is `None` here.
 */
module Proto {
  import opened Wrappers
  import opened Exceptions

  datatype MessageId = MessageId(sessionAlias: string, sequence: int)

  /** A field value of a wire message: a simple value, a list, or a nested message. */
  datatype Value =
    | SimpleValue(text: string)
    | ListValue(items: seq<Value>)
    | MessageValue(fields: map<string, Value>)

  datatype Message = Message(id: MessageId, messageType: string, fields: map<string, Value>)

  /** The per-task settings: a repeated field of names to ignore. */
  datatype ComparisonSettings = ComparisonSettings(ignoreFields: seq<string>)

  datatype CompareMessageVsMessageTask =
    CompareMessageVsMessageTask(first: Message, second: Message, settings: ComparisonSettings)

  datatype EntryStatus = PASSED | FAILED | NA
  {
    /** The constant's name in the enum declaration. */
    function Name(): string
    {
      match this
      case PASSED => "PASSED"
      case FAILED => "FAILED"
      case NA => "NA"
    }
  }

  datatype EntryType = FIELD | COLLECTION

  /** A node of the answer: two renderings, a status, a type and the named sub-entries. */
  datatype ComparisonEntry = ComparisonEntry(
    first: Option<string>,
    second: Option<string>,
    status: Option<EntryStatus>,
    entryType: Option<EntryType>,
    fields: map<string, ComparisonEntry>)

  /** What ComparisonEntry.newBuilder() starts from: nothing set, no sub-entries. */
  const EmptyEntry := ComparisonEntry(None, None, None, None, map[])

  datatype CompareMessageVsMessageResult = CompareMessageVsMessageResult(
    firstMessageId: MessageId,
    secondMessageId: MessageId,
    comparisonResult: ComparisonEntry)

  datatype CompareMessageVsMessageResponse =
    CompareMessageVsMessageResponse(comparisonResults: seq<CompareMessageVsMessageResult>)

  /** The filter-versus-messages request and response; the service never reads or builds their fields. */
  datatype CompareFilterVsMessagesRequest = CompareFilterVsMessagesRequest(filter: Message, messages: seq<Message>)
  datatype CompareFilterVsMessagesResponse = CompareFilterVsMessagesResponse

  /** The sub-entry reached by following a path of field names, if there is one. */
  function EntryAt(e: ComparisonEntry, path: seq<string>): Option<ComparisonEntry>
    decreases |path|
  {
    if path == [] then Some(e)
    else if path[0] in e.fields then EntryAt(e.fields[path[0]], path[1..])
    else None
  }

  /**
   * ComparisonEntry.Builder. The generated setters throw NullPointerException
   * when handed null; each setter here returns the error it threw, if any,
   * and leaves the builder as it was in that case.
   */
  class EntryBuilder {
    var first: Option<string>
    var second: Option<string>
    var status: Option<EntryStatus>
    var entryType: Option<EntryType>
    var fields: map<string, ComparisonEntry>

    /** build(): the message with every field set so far. */
    function Build(): ComparisonEntry
      reads this
    {
      ComparisonEntry(first, second, status, entryType, fields)
    }

    constructor ()
      ensures Build() == EmptyEntry
    {
      first, second, status, entryType, fields := None, None, None, None, map[];
    }

    method SetFirst(v: Option<string>) returns (thrown: Option<Error>)
      modifies this
      ensures thrown == if v.None? then Some(NullPointer) else None
      ensures Build() == if v.None? then old(Build()) else old(Build()).(first := v)
    {
      if v.None? {
        return Some(NullPointer);
      }
      first := v;
      return None;
    }

    method SetSecond(v: Option<string>) returns (thrown: Option<Error>)
      modifies this
      ensures thrown == if v.None? then Some(NullPointer) else None
      ensures Build() == if v.None? then old(Build()) else old(Build()).(second := v)
    {
      if v.None? {
        return Some(NullPointer);
      }
      second := v;
      return None;
    }

    method SetStatus(v: Option<EntryStatus>) returns (thrown: Option<Error>)
      modifies this
      ensures thrown == if v.None? then Some(NullPointer) else None
      ensures Build() == if v.None? then old(Build()) else old(Build()).(status := v)
    {
      if v.None? {
        return Some(NullPointer);
      }
      status := v;
      return None;
    }

    method SetType(t: EntryType)
      modifies this
      ensures Build() == old(Build()).(entryType := Some(t))
    {
      entryType := Some(t);
    }

    /** putFields(key, value): adds the sub-entry, replacing one already under that key. */
    method PutFields(key: string, value: ComparisonEntry)
      modifies this
      ensures Build() == old(Build()).(fields := old(fields)[key := value])
    {
      fields := fields[key := value];
    }
  }
}
