/**
 * The task of the service's unit test: two copies of one message with a
 * simple field, a simple field to ignore and a four-element list, compared
 * with "IgnoredField" on the ignore list.
 */
module ExampleTask {
  import Proto
  import Sailfish
  import MessageComparator
  import MessageComparatorService

  const IgnoredField := "IgnoredField"

  function TestMessage(): Proto.Message
  {
    Proto.Message(
      Proto.MessageId("session", 123),
      "MessageType",
      map[
        "FieldSimple" := Proto.SimpleValue("1"),
        IgnoredField := Proto.SimpleValue("6"),
        "FieldList" := Proto.ListValue([Proto.SimpleValue("2"), Proto.SimpleValue("3a"),
                                        Proto.SimpleValue("b4"), Proto.SimpleValue("c5d")])])
  }

  function TestTask(): Proto.CompareMessageVsMessageTask
  {
    Proto.CompareMessageVsMessageTask(TestMessage(), TestMessage(), Proto.ComparisonSettings([IgnoredField]))
  }

  /**
   * The newer service hands the library exactly {"IgnoredField"} to ignore.
   * The older one gives the same answer for the test's task as for that task
   * with an empty ignore list, so the field is compared there.
   */
  lemma TestTaskIgnoredFields(lib: Sailfish.Library)
    ensures MessageComparator.CreateSettings(TestTask().settings).ignoredFields == {IgnoredField}
    ensures MessageComparatorService.CompareTask(lib, TestTask())
         == MessageComparatorService.CompareTask(lib, TestTask().(settings := Proto.ComparisonSettings([])))
  {
    assert IgnoredField in TestTask().settings.ignoreFields;
    MessageComparatorService.IgnoreListNeverConsulted(lib, TestTask(), Proto.ComparisonSettings([]));
  }
}
