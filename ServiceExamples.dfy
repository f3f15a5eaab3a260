/** Worked examples of routing keys and of a listener relaying a few messages. */
module ServiceExamples {
  import opened Wrappers
  import opened JavaLang
  import opened Json
  import opened JsonHelper
  import opened PartitionStrategy
  import opened Service
  import opened JsonHelperExamples

  /** A numeric key is read as its value. */
  lemma RoutingKeyOfNumber()
    ensures RoutingKey([Member("key", Num("7"))]) == 7
  {
    KeySevenAsLong();
  }

  lemma KeySevenAsLong()
    ensures SortedFirstElement([Member("key", Num("7"))], "key", LongTarget) == Some(LongValue(7))
  {
    MatchesOfOne(Member("key", Num("7")), "key");
    assert SelectedRaw([Member("key", Num("7"))], "key") == Some("7");
    assert Trim("7") == "7";
    ParseDecimalStringRoundTrip(7, LONG_MIN, LONG_MAX);
    assert DecimalString(7) == "7";
  }

  /** A key whose text is not a Long gives 0. */
  lemma RoutingKeyOfText()
    ensures RoutingKey([Member("key", Str("abc"))]) == 0
  {
    MatchesOfOne(Member("key", Str("abc")), "key");
    assert Least(["abc"]) == "abc";
    assert Trim("abc") == "abc";
    assert !IsDigit('a');
  }

  /** A document without "key" gives 0. */
  lemma RoutingKeyAbsent()
    ensures RoutingKey(Flat()) == 0
  {
    FlatMatches("key");
  }

  /** The parser of the scenario: it knows one JSON object text. */
  function ScenarioParser(t: string): Option<seq<Member>> {
    if t == "{\"key\":7}" then Some([Member("key", Num("7"))]) else None
  }

  /** The keyed body of the scenario is parsed, keyed 7 and sent to partition 1 of 3. */
  lemma ScenarioPartition()
    ensures ScenarioParser("{\"key\":7}") == Some([Member("key", Num("7"))])
    ensures Apply(Modulo, 3, RoutingKey([Member("key", Num("7"))])) == Some(1)
    ensures ScenarioParser("plain") == None
  {
    RoutingKeyOfNumber();
    ModuloInRange(3, 7);
  }

  /**
   * With three partitions reported for the first configured topic, a body
   * keyed 7 goes to partition 1, a plain-text body to partition 0, and a
   * non-text message is refused without a record; every record goes to the
   * producer's default topic.
   */
  method RelayScenario() returns (log: seq<Record>, refused: Outcome)
    ensures log == [Record("relay-out", 1, None, "{\"key\":7}"), Record("relay-out", 0, None, "plain")]
    ensures refused == IllegalArgument(NOT_TEXT_MESSAGE)
  {
    var consumer := new ManagementConsumer(map["orders" := 3]);
    var created := KafkaMessageSink.Create("relay-out", consumer, ["orders", "audit"]);
    var sink := created.value;
    var listener := new MqSeriesListener(sink, Modulo, ScenarioParser);
    assert consumer.PartitionsFor("orders") == 3;
    ScenarioPartition();
    var first := listener.OnMessage(TextMessage(Some("{\"key\":7}")));
    assert sink.log == [Record("relay-out", 1, None, "{\"key\":7}")];
    var second := listener.OnMessage(TextMessage(Some("plain")));
    refused := listener.OnMessage(OtherMessage);
    log := sink.log;
  }
}
