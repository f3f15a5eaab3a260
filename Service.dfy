/**
 * The relay itself: the Kafka sink that publishes message bodies and the MQ
 * listener that decides, per received message, which partition a body goes
 * to.  Kafka is seen through the records the sink hands to the producer and
 * through the partition counts the management consumer reports.
 */
module Service {
  import opened Wrappers
  import opened JavaLang
  import opened Json
  import opened JsonHelper
  import opened PartitionStrategy

  /** A partition count as `List.size()` reports it. */
  type PartitionCount = n: int | 0 <= n <= 0x7FFF_FFFF

  /** One record handed to the producer: topic, partition, key (null is `None`) and value. */
  datatype Record = Record(topic: string, partition: Int32, key: Option<string>, value: string)

  /**
   * The management consumer's view of the cluster: how many partitions each
   * topic has.  The cluster may change it at any time; a topic it does not
   * know has no partitions.
   */
  class ManagementConsumer {
    var partitionCounts: map<string, PartitionCount>

    constructor (counts: map<string, PartitionCount>)
      ensures partitionCounts == counts
    {
      partitionCounts := counts;
    }

    /** `partitionsFor(topic).size()`. */
    function PartitionsFor(topic: string): (n: PartitionCount)
      reads this
    {
      if topic in partitionCounts then partitionCounts[topic] else 0
    }
  }

  /**
   * KafkaMessageSink: records go to the producer's default topic, while
   * partition counts are asked for `topicName`, the first configured consumer
   * topic.  `log` is what has been handed to the producer so far.
   * `partitionQueries` counts the calls of GetTopicPartitions, so that a
   * caller's contract can say when the partition count was consulted.
   */
  class KafkaMessageSink {
    const defaultTopic: string
    const consumer: ManagementConsumer
    const topicName: string
    var log: seq<Record>
    ghost var partitionQueries: nat

    constructor (defaultTopic: string, consumer: ManagementConsumer, topicName: string)
      ensures this.defaultTopic == defaultTopic && this.consumer == consumer && this.topicName == topicName
      ensures log == [] && partitionQueries == 0
    {
      this.defaultTopic := defaultTopic;
      this.consumer := consumer;
      this.topicName := topicName;
      log := [];
      partitionQueries := 0;
    }

    /**
     * The Java constructor: `topicName` is the first of the configured topic
     * names; with none configured construction fails (NoSuchElementException),
     * which is `None` here.
     */
    static method Create(defaultTopic: string, consumer: ManagementConsumer, topicNames: seq<string>)
      returns (r: Option<KafkaMessageSink>)
      ensures r.None? <==> topicNames == []
      ensures r.Some? ==> fresh(r.value) && r.value.topicName == topicNames[0]
                          && r.value.defaultTopic == defaultTopic && r.value.consumer == consumer
                          && r.value.log == [] && r.value.partitionQueries == 0
    {
      if topicNames == [] {
        return None;
      }
      var sink := new KafkaMessageSink(defaultTopic, consumer, topicNames[0]);
      return Some(sink);
    }

    /** `sendMessage(msg)`: the same as sending to partition 0, not to the producer's own partitioner. */
    method SendMessage(msg: string)
      modifies this
      ensures log == old(log) + [Record(defaultTopic, 0, None, msg)]
      ensures partitionQueries == old(partitionQueries)
    {
      SendMessageTo(msg, 0);
    }

    /** `sendMessage(msg, partition)`: exactly one record, to the default topic, with a null key; then flush. */
    method SendMessageTo(msg: string, partition: Int32)
      modifies this
      ensures log == old(log) + [Record(defaultTopic, partition, None, msg)]
      ensures partitionQueries == old(partitionQueries)
    {
      log := log + [Record(defaultTopic, partition, None, msg)];
    }

    /** `getTopicPartitions()`: the count reported now for `topicName`, asked afresh on every call. */
    method GetTopicPartitions() returns (n: PartitionCount)
      modifies this
      ensures n == consumer.PartitionsFor(topicName)
      ensures log == old(log)
      ensures partitionQueries == old(partitionQueries) + 1
    {
      partitionQueries := partitionQueries + 1;
      n := consumer.PartitionsFor(topicName);
    }
  }

  /**
   * The routing key of a JSON body: the first (in String order) value found
   * under "key" anywhere in the document, trimmed and read as a Long; 0 when
   * there is no such value or it is not a Long.
   */
  function RoutingKey(ms: seq<Member>): (k: Int64)
    ensures ObjectMatches(ms, "key") == [] ==> k == 0
    ensures ObjectMatches(ms, "key") != [] ==>
              var t := Trim(Least(ObjectMatches(ms, "key")));
              && (ParseLong(t).Some? ==> k == DecimalValue(t))
              && (ParseLong(t).None? ==> k == 0)
  {
    var found := SortedFirstElement(ms, "key", LongTarget);
    assert ObjectMatches(ms, "key") != [] ==>
             found == Coerce(Trim(Least(ObjectMatches(ms, "key"))), LongTarget) by {
      if ObjectMatches(ms, "key") != [] {
        SortedFirstElementOfLeast(ms, "key", LongTarget);
      }
    }
    if found.Some? && found.value.LongValue? then found.value.n else 0
  }

  /** The routing key does not depend on the order in which the document's members are iterated. */
  lemma RoutingKeyIgnoresMemberOrder(a: seq<Member>, b: seq<Member>)
    requires multiset(a) == multiset(b)
    ensures RoutingKey(a) == RoutingKey(b)
  {
    SortedFirstElementIgnoresMemberOrder(a, b, "key", LongTarget);
  }

  /** What receiving a message may lead to: relayed, or the exception that leaves onMessage. */
  datatype Outcome =
    | Relayed
    | IllegalArgument(reason: string)
    /** A JMSException reading the body, rethrown as RuntimeException. */
    | RuntimeFailure
    /** The modulo chooser asked to divide by a partition count of 0. */
    | ArithmeticFailure

  /** A received JMS message; a text message whose body cannot be read holds `None`. */
  datatype Message = TextMessage(body: Option<string>) | OtherMessage

  const NOT_TEXT_MESSAGE := "Message type must be a TextMessage"

  /**
   * MqSeriesListener.  `parseObject` is `new JSONObject(text)`, with `None`
   * for a JSONException; isValidJson asks the same question, so one parse
   * decides both.
   */
  class MqSeriesListener {
    const sink: KafkaMessageSink
    const strategy: Strategy
    const parseObject: string -> Option<seq<Member>>

    constructor (sink: KafkaMessageSink, strategy: Strategy, parseObject: string -> Option<seq<Member>>)
      ensures this.sink == sink && this.strategy == strategy && this.parseObject == parseObject
    {
      this.sink := sink;
      this.strategy := strategy;
      this.parseObject := parseObject;
    }

    /**
     * `onMessage`: a non-text message is refused and a body that cannot be
     * read fails, both without touching the sink.  A body that is not a JSON
     * object goes unchanged to partition 0 without consulting the partition
     * count.  A JSON object body has its partition chosen from the current
     * partition count and its routing key, and goes unchanged to that
     * partition; when the chooser fails nothing is sent.
     */
    method OnMessage(message: Message) returns (outcome: Outcome)
      modifies sink
      ensures message.OtherMessage? ==>
                outcome == IllegalArgument(NOT_TEXT_MESSAGE) && sink.log == old(sink.log)
                && sink.partitionQueries == old(sink.partitionQueries)
      ensures message == TextMessage(None) ==>
                outcome == RuntimeFailure && sink.log == old(sink.log)
                && sink.partitionQueries == old(sink.partitionQueries)
      ensures message.TextMessage? && message.body.Some? && parseObject(message.body.value).None? ==>
                outcome == Relayed
                && sink.log == old(sink.log) + [Record(sink.defaultTopic, 0, None, message.body.value)]
                && sink.partitionQueries == old(sink.partitionQueries)
      ensures message.TextMessage? && message.body.Some? && parseObject(message.body.value).Some? ==>
                var chosen := Apply(strategy, sink.consumer.PartitionsFor(sink.topicName),
                                    RoutingKey(parseObject(message.body.value).value));
                && sink.partitionQueries == old(sink.partitionQueries) + 1
                && (chosen.None? ==> outcome == ArithmeticFailure && sink.log == old(sink.log))
                && (chosen.Some? ==>
                      outcome == Relayed
                      && sink.log == old(sink.log) + [Record(sink.defaultTopic, chosen.value, None, message.body.value)])
    {
      if message.OtherMessage? {
        return IllegalArgument(NOT_TEXT_MESSAGE);
      }
      if message.body.None? {
        return RuntimeFailure;
      }
      var text := message.body.value;
      var parsed := parseObject(text);
      if parsed.Some? {
        var key := RoutingKey(parsed.value);
        var partitions := sink.GetTopicPartitions();
        var chosen := Apply(strategy, partitions, key);
        if chosen.None? {
          return ArithmeticFailure;
        }
        sink.SendMessageTo(text, chosen.value);
      } else {
        sink.SendMessage(text);
      }
      return Relayed;
    }
  }
}
