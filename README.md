# mq2kafka-transporter: a Dafny model of the relay core

The transporter listens on an IBM MQ queue and republishes every text message
to Kafka. When a body is a JSON object, the relay picks a partition from a
routing key found inside the document. This project models that core:

- **Key extraction** (`JsonHelper`). It walks a parsed JSON object and collects
  the text of every value stored under a field name, at any depth. Arrays are
  searched too. It picks the first candidate in the natural order of Java
  strings, trims it, and coerces it to Boolean, Long, Integer or String. A
  candidate that does not parse gives an empty result.
- **Partition choice** (`PartitionStrategy`). The modulo delegate takes the
  Java remainder of the key by the partition count. The start-up fallback
  always answers 1.
- **Publishing** (`Service.KafkaMessageSink`). A class holds the log of records
  handed to the producer. It knows the first configured topic name and asks the
  management consumer for that topic's partition count.
- **Receiving** (`Service.MqSeriesListener`). For each message, the listener
  refuses non-text messages and fails on unreadable bodies. A JSON-object body
  goes to the chosen partition. Under the modulo chooser, a negative key that
  the partition count does not divide gives a negative partition; the real
  Kafka client refuses such a record, so that send fails. Any other body goes
  to partition 0.

Supporting modules: `JavaLang` holds the JDK semantics the core depends on:
truncated remainder, the `(int)` cast, `String.trim`, `String.compareTo`,
`equalsIgnoreCase` and `Long`/`Integer` parsing. `Json` holds the JSON value
tree and each value's `toString`. `Wrappers` holds `Option`.
`JsonHelperExamples` and `ServiceExamples` prove the documents of the unit
tests and a small relay scenario.

Some behaviours of the code are easy to miss:

- The one-argument `sendMessage` sends to partition 0 explicitly.
- The chosen partition is not always in `[0, count)`. Under the modulo
  chooser, a negative key that the count does not divide gives a negative
  partition (a negative multiple of the count gives 0). The fallback gives 1
  whatever the key, even for a one-partition topic. A zero partition count
  makes the modulo delegate throw. The model records a record for a negative
  or out-of-range partition as handed to the producer. The real Kafka client
  refuses a negative partition when the record is built, so in the running
  relay such a send fails and nothing is delivered.
- The partition count is asked for the first configured consumer topic, but
  records go to the producer's default topic. The sink alone does not tie the two
  together. The application's configuration sets both from the same
  configured topic name, so there they are equal.
- A body that is valid JSON but not an object (an array, say) is not "valid
  JSON" to the relay. It takes the unkeyed path.

## Model

| member | source | states |
|---|---|---|
| JavaLang.Rem | src/main/java/plastephi/messaging/strategy/ModuloPartitionDelegate.java:6 | Java's `%`: the dividend is the divisor times the quotient rounded toward zero plus the result. The result is smaller than the divisor in magnitude. A non-zero result has the dividend's sign. |
| JavaLang.RemUnique | src/main/java/plastephi/messaging/strategy/ModuloPartitionDelegate.java:6 | Those three facts determine the remainder and the quotient: any pair satisfying them is `Rem` and `Quot`. |
| JavaLang.SameQuotient | src/main/java/plastephi/messaging/strategy/ModuloPartitionDelegate.java:6 | Two quotients whose products with the divisor differ by less than the divisor in magnitude are equal. |
| JavaLang.ToInt32 | src/main/java/plastephi/messaging/strategy/ModuloPartitionDelegate.java:6 | The `(int)` cast keeps the value modulo 2^32. It leaves every value in the int range unchanged. |
| JavaLang.Trim | src/main/java/plastephi/messaging/helper/JsonHelper.java:47 | The result of `trim()` neither starts nor ends with a char at most U+0020, and fits in `s` after the leading such chars. |
| JavaLang.LeadingBlanksAreBlank | src/main/java/plastephi/messaging/helper/JsonHelper.java:47 | Every char `trim()` drops from the front is at most U+0020. |
| JavaLang.TrailingBlanksAreBlank | src/main/java/plastephi/messaging/helper/JsonHelper.java:47 | Every char `trim()` drops from the back is at most U+0020. |
| JavaLang.TrimIsSlice | src/main/java/plastephi/messaging/helper/JsonHelper.java:47 | The trim is the slice of `s` that starts right after the leading blanks. |
| JavaLang.TrimFollowedByBlanks | src/main/java/plastephi/messaging/helper/JsonHelper.java:47 | Only chars at most U+0020 follow the trim in `s`. |
| JavaLang.TrimKeepsUnpadded | src/main/java/plastephi/messaging/helper/JsonHelper.java:47 | A string with no blank at either end is its own trim. |
| JavaLang.TrimIdempotent | src/main/java/plastephi/messaging/helper/JsonHelper.java:47 | Trimming twice is trimming once. |
| JavaLang.Less | src/main/java/plastephi/messaging/helper/JsonHelper.java:41 | `compareTo < 0` in the natural order: a proper prefix precedes the longer string, and no string precedes itself. |
| JavaLang.LessIrreflexive | src/main/java/plastephi/messaging/helper/JsonHelper.java:41 | No string precedes itself in the natural (UTF-16 code unit) order. |
| JavaLang.LessAsymmetric | src/main/java/plastephi/messaging/helper/JsonHelper.java:41 | Two strings never precede each other. |
| JavaLang.LessTransitive | src/main/java/plastephi/messaging/helper/JsonHelper.java:41 | Precedence is transitive. |
| JavaLang.LessAtFirstDifference | src/main/java/plastephi/messaging/helper/JsonHelper.java:41 | Strings that agree up to a position and differ there are ordered by their UTF-16 code units at that position. |
| JavaLang.LessTotal | src/main/java/plastephi/messaging/helper/JsonHelper.java:41 | Of two different strings, one precedes the other. |
| JavaLang.AtMostTotalOrder | src/main/java/plastephi/messaging/helper/JsonHelper.java:41 | The natural order is reflexive, antisymmetric, transitive and total, so sorting has one first element. |
| JavaLang.EqualsIgnoreCase | src/main/java/plastephi/messaging/helper/JsonHelper.java:53 | `equalsIgnoreCase` against ASCII text: equal texts match, and matching texts have the same length. |
| JavaLang.NonAsciiMatchesOnlyFoldedLetters | src/main/java/plastephi/messaging/helper/JsonHelper.java:53 | Against ASCII text, the only non-ASCII chars that match are U+0130 and U+0131, which match exactly i and I; U+017F, which matches exactly s and S; and U+212A, which matches exactly k and K. |
| JavaLang.EqualsIgnoreCaseIsLowerEquality | src/main/java/plastephi/messaging/helper/JsonHelper.java:53 | For ASCII text, `equalsIgnoreCase` holds exactly when the lower cases are equal. |
| JavaLang.ParseLong | src/main/java/plastephi/messaging/helper/JsonHelper.java:55 | `new Long(s)` succeeds exactly for an optional sign followed by digits whose value fits in a long, and yields that value. |
| JavaLang.ParseInt | src/main/java/plastephi/messaging/helper/JsonHelper.java:55 | The same for `new Integer(s)` and the int range. |
| JavaLang.NatDigitsValue | src/main/java/plastephi/messaging/helper/JsonHelper.java:55 | The decimal digits of `n` read back as `n`. |
| JavaLang.ParseDecimalStringRoundTrip | src/main/java/plastephi/messaging/helper/JsonHelper.java:55 | Parsing the `toString` of any value in range gives the value back. |
| Json.ToText | src/main/java/plastephi/messaging/helper/JsonHelper.java:71 | `toString()` of a string value is the string itself; of any other value it is the value's JSON form. |
| JsonHelper.LoopThroughJson | src/main/java/plastephi/messaging/helper/JsonHelper.java:66-81 | The loop returns the candidates of the object in member order. For each member, its own text comes first when its name is the key, then everything found inside its value. |
| JsonHelper.GetValuesInArray | src/main/java/plastephi/messaging/helper/JsonHelper.java:83-93 | The loop returns what nested objects and arrays yield, in item order. Scalar items add nothing. |
| JsonHelper.ObjectMatchesExactly | src/main/java/plastephi/messaging/helper/JsonHelper.java:66-81 | A text is collected if and only if it is the text of a value stored under the key somewhere in the object, at any depth, through objects and arrays. |
| JsonHelper.InsideExactly | src/main/java/plastephi/messaging/helper/JsonHelper.java:74-78 | Descending into a value finds a text if and only if it occurs under the key inside that value. A scalar finds nothing. |
| JsonHelper.ArrayMatchesExactly | src/main/java/plastephi/messaging/helper/JsonHelper.java:83-93 | An array yields a text if and only if the text occurs under the key inside one of its items. |
| JsonHelper.ObjectMatchesAppend | src/main/java/plastephi/messaging/helper/JsonHelper.java:68-79 | The candidates of a concatenation of members are the candidates of the parts, concatenated. |
| JsonHelper.ObjectMatchesReordered | src/main/java/plastephi/messaging/helper/JsonHelper.java:68 | Visiting the searched object's own members in another order yields the same candidates as a multiset. Nested objects keep their order. |
| JsonHelper.Least | src/main/java/plastephi/messaging/helper/JsonHelper.java:39-47 | The selected element is one of the candidates and no candidate precedes it. |
| JsonHelper.LeastDependsOnContentsOnly | src/main/java/plastephi/messaging/helper/JsonHelper.java:39-47 | Two lists with the same elements have the same least element. |
| JsonHelper.SortedHeadIsLeast | src/main/java/plastephi/messaging/helper/JsonHelper.java:41-47 | After any sort of the list into natural order, element 0 is the least candidate. |
| JsonHelper.SelectedRaw | src/main/java/plastephi/messaging/helper/JsonHelper.java:37-47 | Nothing is selected exactly when there are no candidates. Otherwise the untrimmed selection is a candidate that no candidate precedes; a single candidate is taken without sorting. |
| JsonHelper.BoolValuesAreLowerCase | src/main/java/plastephi/messaging/helper/JsonHelper.java:20 | Each truthy token is its own lower case. |
| JsonHelper.IsTruthy | src/main/java/plastephi/messaging/helper/JsonHelper.java:53 | Each token of `BOOL_VALUES` is truthy, and a truthy text is one to four chars long, like the tokens it equals ignoring case. |
| JsonHelper.TruthyIffLowerCaseToken | src/main/java/plastephi/messaging/helper/JsonHelper.java:52-53 | ASCII text is truthy if and only if its lower case is one of "true", "ja", "yes", "si", "1". |
| JsonHelper.Coerce | src/main/java/plastephi/messaging/helper/JsonHelper.java:49-61 | The result is empty exactly when a Long or Integer parse fails. A Boolean is always present and is true exactly for a truthy text. A Long or Integer is the decimal value of the text. A String is the text itself. |
| JsonHelper.SortedFirstElement | src/main/java/plastephi/messaging/helper/JsonHelper.java:36-62 | No candidates give an empty result. For Boolean and String, a result is present if and only if the key occurs. |
| JsonHelper.SortedFirstElementOfLeast | src/main/java/plastephi/messaging/helper/JsonHelper.java:36-62 | When the key occurs, the result is the coercion of the trimmed least candidate. |
| JsonHelper.StringResultIsTrimmedFirstCandidate | src/main/java/plastephi/messaging/helper/JsonHelper.java:47-55 | A String result is present and is the trim of a candidate that occurs in the document and that no occurring text precedes. |
| JsonHelper.BooleanResultIsTruthiness | src/main/java/plastephi/messaging/helper/JsonHelper.java:52-53 | A Boolean result is always present when the key occurs. It is true exactly when the trimmed least candidate is a truthy token. |
| JsonHelper.SortedFirstElementIgnoresMemberOrder | src/main/java/plastephi/messaging/helper/JsonHelper.java:36-47 | The result does not depend on the order in which the members of the searched object are iterated. |
| JsonHelperExamples.FlatMatches | src/test/java/plastephi/messaging/JSONParserTest.java:22-24 | The flat test document yields one candidate for each of its keys. |
| JsonHelperExamples.FlatUidAsLong | src/test/java/plastephi/messaging/JSONParserTest.java:55 | "uid" read as Long is 1220. |
| JsonHelperExamples.FlatNameAsString | src/test/java/plastephi/messaging/JSONParserTest.java:56 | "name" read as String is "video 01". |
| JsonHelperExamples.FlatBoolAsBoolean | src/test/java/plastephi/messaging/JSONParserTest.java:57 | JSON true under "bool" reads as Boolean true. |
| JsonHelperExamples.FlatBool2AsBoolean | src/test/java/plastephi/messaging/JSONParserTest.java:58 | "ja" under "bool2" reads as Boolean true. |
| JsonHelperExamples.MultiplyMatches | src/test/java/plastephi/messaging/JSONParserTest.java:25-32 | The two-sided document yields the side1 candidate, then the side2 candidate, for each key. |
| JsonHelperExamples.DuplicateUidPicksSortedFirst | src/test/java/plastephi/messaging/JSONParserTest.java:64 | Of 31 and 21, the Integer read is 21. |
| JsonHelperExamples.DuplicateNamePicksSortedFirst | src/test/java/plastephi/messaging/JSONParserTest.java:65 | Of "video first" and "video second", the String read is "video first". |
| JsonHelperExamples.DuplicateBoolPicksSortedFirst | src/test/java/plastephi/messaging/JSONParserTest.java:66 | Of "false" and "true", the Boolean read is false. |
| JsonHelperExamples.DeepDocument | src/test/java/plastephi/messaging/JSONParserTest.java:70-73 | A uid nested six objects deep is found. Of 55 and 56 the Integer read is 55. |
| JsonHelperExamples.EmptyResults | src/test/java/plastephi/messaging/JSONParserTest.java:46-49 | An empty object, or a key that does not occur, gives an empty result. |
| JsonHelperExamples.UnparsableLongIsEmpty | src/test/java/plastephi/messaging/JSONParserTest.java:91-93 | "x" read as Long gives an empty result. |
| JsonHelperExamples.TruthyTokens | src/test/java/plastephi/messaging/JSONParserTest.java:85 | true, TrUE, Si, JA, 1 and Yes are truthy. |
| JsonHelperExamples.FalsyTexts | src/test/java/plastephi/messaging/JSONParserTest.java:86 | error, false, FALSE, no and 0 read as Boolean false, not as an empty result. |
| JsonHelperExamples.MatchedValueIsAlsoSearched | src/main/java/plastephi/messaging/helper/JsonHelper.java:70-76 | An object stored under the key is collected as text and is also searched, so `{"uid":{"uid":1}}` yields two candidates. |
| JsonHelperExamples.ArraysHoldNoDirectMatches | src/main/java/plastephi/messaging/helper/JsonHelper.java:83-93 | An array under the key contributes its own text, then only what objects inside it hold. A number directly inside it is never collected. |
| JsonHelperExamples.SortingPrecedesTrimming | src/main/java/plastephi/messaging/helper/JsonHelper.java:41-47 | Sorting sees untrimmed text: of " 2" and "1", the Long read is 2. |
| JsonHelperExamples.DotlessIIsTruthy | src/main/java/plastephi/messaging/helper/JsonHelper.java:53 | "sı" (dotless i) equals "si" ignoring case, so it is truthy. |
| PartitionStrategy.ModuloApply | src/main/java/plastephi/messaging/strategy/ModuloPartitionDelegate.java:5-6 | The partition is the Java remainder of the key by the count; the narrowing cast changes nothing. It is smaller than the count in magnitude and never has the opposite sign of the key. |
| PartitionStrategy.ModuloIsTheRemainder | src/main/java/plastephi/messaging/strategy/ModuloPartitionDelegate.java:6 | Any value that differs from the key by a multiple of the count, is smaller than the count in magnitude and does not have the opposite sign of the key is the partition. |
| PartitionStrategy.ModuloInRange | src/main/java/plastephi/messaging/strategy/ModuloPartitionDelegate.java:6 | For a positive count and a non-negative key, the partition lies in `[0, count)` and is the ordinary modulus. |
| PartitionStrategy.ModuloOfNegativeKey | src/main/java/plastephi/messaging/strategy/ModuloPartitionDelegate.java:6 | For a positive count and a negative key, the partition lies in `(-count, 0]`. It is 0 exactly when the count divides the key. |
| PartitionStrategy.NegativeKeyExample | src/main/java/plastephi/messaging/strategy/ModuloPartitionDelegate.java:6 | Key -1 on three partitions gives partition -1. |
| PartitionStrategy.ModuloShift | src/main/java/plastephi/messaging/strategy/ModuloPartitionDelegate.java:6 | Non-negative keys that differ by a multiple of the count share a partition. |
| PartitionStrategy.FallbackOnOnePartition | src/main/java/plastephi/messaging/config/JmsKafkaConfig.java:177 | On a topic with one partition the fallback still answers partition 1, which does not exist. |
| PartitionStrategy.Apply | src/main/java/plastephi/messaging/config/JmsKafkaConfig.java:171-179 | The chooser in use fails exactly when it is the modulo delegate and the count is 0. A modulo answer differs from the key by a multiple of the count and keeps the bounds and sign above. The fallback answers its constant whatever it is given. |
| Service.KafkaMessageSink.constructor | src/main/java/plastephi/messaging/service/KafkaMessageSink.java:15-22 | A sink starts with the given default topic, consumer and topic name, and an empty log. |
| Service.KafkaMessageSink.Create | src/main/java/plastephi/messaging/service/KafkaMessageSink.java:15-22 | Construction fails exactly when no topic name is configured. Otherwise `topicName` is the first configured name. |
| Service.KafkaMessageSink.SendMessage | src/main/java/plastephi/messaging/service/KafkaMessageSink.java:24-26 | Exactly one record is appended: default topic, partition 0, null key, the message. |
| Service.KafkaMessageSink.SendMessageTo | src/main/java/plastephi/messaging/service/KafkaMessageSink.java:28-31 | Exactly one record is appended: default topic, the given partition, null key, the message. |
| Service.KafkaMessageSink.GetTopicPartitions | src/main/java/plastephi/messaging/service/KafkaMessageSink.java:33-35 | The count is the one reported now for `topicName`, asked afresh on each call. The log is unchanged. |
| Service.RoutingKey | src/main/java/plastephi/messaging/service/MqSeriesListener.java:39-41 | With no "key" in the document the routing key is 0. Otherwise it is the Long value of the trimmed least candidate, or 0 when that text is not a Long. |
| Service.RoutingKeyIgnoresMemberOrder | src/main/java/plastephi/messaging/service/MqSeriesListener.java:39-41 | The routing key does not depend on the order in which the document's top-level members are iterated. |
| Service.MqSeriesListener.constructor | src/main/java/plastephi/messaging/service/MqSeriesListener.java:22-25 | The listener holds the given sink and chooser. |
| Service.MqSeriesListener.OnMessage | src/main/java/plastephi/messaging/service/MqSeriesListener.java:32-56 | A non-text message throws IllegalArgumentException and an unreadable body throws RuntimeException; neither touches the sink. A body that is not a JSON object goes unchanged to partition 0, and the count is not queried. A JSON object body queries the count once and goes unchanged to the chosen partition. When the chooser throws, nothing is sent. |
| ServiceExamples.RoutingKeyOfNumber | src/main/java/plastephi/messaging/service/MqSeriesListener.java:39-41 | `{"key":7}` has routing key 7. |
| ServiceExamples.RoutingKeyOfText | src/main/java/plastephi/messaging/service/MqSeriesListener.java:39-41 | `{"key":"abc"}` has routing key 0. |
| ServiceExamples.RoutingKeyAbsent | src/main/java/plastephi/messaging/service/MqSeriesListener.java:39-41 | A document without "key" has routing key 0. |
| ServiceExamples.RelayScenario | src/main/java/plastephi/messaging/service/MqSeriesListener.java:32-56 | With three partitions, `{"key":7}` goes to partition 1 and a plain body to partition 0, both on the default topic. A non-text message is refused and leaves no record. |

## Left out

- Temporal coercion (the `Temporal` branch of getSortedFirstElement): ISO-8601 date parsing is not modelled. `Target` has no temporal case.
- JSON text parsing: `new JSONObject(text)` and `JsonHelper.isValidJson` are library parsing. The listener takes the parser as a function value; `isValidJson(text)` is that parser succeeding.
- Serialisation of nested objects and arrays: `toString` of a nested object or array is a compact rendering without string escaping. org.json's exact escaping and number formatting are not modelled.
- JavaLang.ParseLong: accepts ASCII digits only. The JDK also accepts other Unicode decimal digits.
- JavaLang.ParseInt: accepts ASCII digits only, for the same reason.
- JavaLang.EqualsIgnoreCase: is defined only against ASCII text, which is all the truthy tokens are.
- Strings are sequences of chars. A char above U+FFFF is ordered as its UTF-16 surrogate pair would be, but it counts as one element, not two.
- The sort failure branch: comparing non-null strings cannot throw, so the fallback to the unsorted list is unreachable and not modelled.
- Service.ManagementConsumer.PartitionsFor: stands in for the cluster's `partitionsFor(topic).size()` and carries no contract of its own. A topic the consumer does not know counts as 0 partitions. The client may instead time out or create the topic.
- Kafka delivery: `send` and `flush` are modelled as appending a record. Send failures, an out-of-range partition and acknowledgements are not modelled.
- A null message body and a null partition are not modelled.
- Logging, Spring wiring, connection factories, producer and consumer properties, and the concurrency of the JMS listener container.
- Loading the strategy class by reflection: the model has the modulo delegate and the constant fallback as the two choices.
