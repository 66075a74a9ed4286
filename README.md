# Trace preprocessing, trace windows and the label vote, in Dafny

This project models the rule-based core of a security-log agent. The agent
reads OpenTelemetry (OTLP/JSON) span payloads of Sysmon events from Kafka. It
normalises each span into a flat event record and gathers the events into
per-trace windows. When a window is idle or full, the agent turns it into a
narrative text and a summary of metadata. The decision of whether a trace is
normal, suspicious or an anomaly comes from a vote over the labels of similar
logs that were judged earlier.

The project has six modules, one per file:

- `Text` (`text.dfy`): Python string operations the code relies on: `strip`,
  `split`, `split(c, 1)`, `replace`, `in`, `"sep".join`, ASCII `lower`,
  `str` ordering, and `sorted` on a set of strings.
- `Python` (`python.dfy`): decoded JSON values, truthiness, `int()`, `str()`
  of an integer, `a or b`, `in` on a value, and list comprehensions whose
  element function may raise (`MapAll`). It also defines the exceptions that
  can be raised (`Outcome`).
- `Dicts` (`dicts.dfy`): an insertion-ordered `dict` with string keys, with
  `get`, item assignment, `setdefault(k, []).append(x)`, `pop` and the total
  size of a dict of lists.
- `Preprocess` (`preprocess.dfy`): `preprocess.py`. This covers the
  attribute codec, `_get_attr`, `_basename`, `_port_fix`, `_ip_or_none`,
  `span_to_event`, the three nested loops of `extract_events_from_otlp`,
  `group_by_trace`, `build_clean_text` and `build_summary_meta`.
- `KafkaTraceConsumer` (`trace_aggregator.dfy`): the class `TraceAggregator`,
  with fields `buckets` and `lastSeen`. The current time is a parameter.
- `LanggraphNode` (`langgraph_node.dfy`): the label vote of `llm_judgment`,
  the gate of `final_decision` together with the slices that feed its
  re-judgement, and the removal of code fences around a model reply.

The loops of the source are methods with loop invariants. Each method is
proved equal to a specification function, and the promised properties are
lemmas about that function. Python exceptions are modelled as values:
`Outcome.Raised(TypeError)`, `Raised(AttributeError)` and `Raised(KeyError(k))`.
A call that raises leaves the object unchanged.

`ipaddress.ip_address`, the `datetime` rendering of a nanosecond timestamp,
and `repr` of a list or dict are parameters of the model, bundled in
`Python.Stdlib`. Nothing else is assumed about them.

The model follows the code in three places where one might expect otherwise:

- Every negative port is wrapped to `p mod 65536` and is never dropped.
- A valid `::ffff:`-prefixed address is returned unchanged. Only an invalid
  one is replaced by the last piece of its `split("::ffff:")`.
- `process_name` prefers the part of the span name before `@` over the
  basename of `Image`.

## Model

| member | source | states |
|---|---|---|
| Preprocess.AttrValue | preprocess.py:8-19 | decoding changes a value only when it is a dict tagged `stringValue`, `intValue` or `boolValue`; the priority of the tags is `AttrValuePriority`, the round trip `AttrValueTagged` |
| Preprocess.AttrValueTagged | preprocess.py:8-19 | decoding a tagged string, integer (sent as decimal text) or boolean gives back the original value |
| Preprocess.AttrValuePriority | preprocess.py:8-19 | `stringValue` wins over `intValue`, which wins over `boolValue`; an unparsable `intValue` is returned raw, a parsable one as `VInt(int(v))`; `boolValue` gives `VBool(bool(v))`; an untagged dict passes through |
| Preprocess.GetAttr | preprocess.py:22-26 | the result is the decoded value of the first entry whose key matches, and the default exactly when no entry matches (a missing or empty list included) |
| Preprocess.GetAttrPresent | preprocess.py:22-26 | when a key is present, the default has no influence on the result |
| Preprocess.Basename | preprocess.py:29-32 | a falsy input comes back unchanged; a truthy non-string raises; a string gives a string |
| Preprocess.BasenameOfPath | preprocess.py:29-32 | the basename of a path contains neither `/` nor `\`, and is a suffix of the path once `\` is rewritten to `/`; it is the whole rewritten path when that has no `/`, and otherwise stands right after a `/`, so it is the text after the last `/` |
| Preprocess.BasenameIdempotent | preprocess.py:29-32 | applying the basename twice equals applying it once |
| Preprocess.PortFix | preprocess.py:35-44 | the result is none or in 0..65535; 0..65535 is kept; every negative p gives p mod 65536; none exactly for non-integers and values above 65535 |
| Preprocess.IpOrNone | preprocess.py:47-56 | a result comes only from a non-empty string and is that string or a suffix of it |
| Preprocess.IpOrNoneCases | preprocess.py:47-56 | empty gives none; a valid address before the first `%` gives the whole string, zone included; an invalid `::ffff:` string gives the last piece of its `split("::ffff:")`, which holds no `::ffff:` and ends the string; anything else gives none |
| Preprocess.NameParts | preprocess.py:70-73 | with an `@` in the name, the name is the head, `@` and the tail, and the head has no `@`; without one, both parts are none |
| Preprocess.SpanToEvent | preprocess.py:68-95 | the event record of a span, field by field, or the exception of the basename; the filtered fields and the raising case are stated by `SpanToEventFields`, the copied fields and `timestamp_utc` by `SpanToEventCopies` |
| Preprocess.SpanToEventFields | preprocess.py:68-95 | the ids are copied; `event_name` is the `EventName` attribute when present, else the tail of the name after `@`, else `""`; `process_name` is the non-empty head of the name, else the basename of `Image`; `sigma_alert` falls back to `sigma@alert`; the ports and IPs go through their filters; it raises exactly when the basename is taken of a truthy non-string |
| Preprocess.SpanToEventCopies | preprocess.py:76-95 | `timestamp_local`, `process_id`, `protocol`, `query_name`, `query_results`, `command_line` and `sigma_rule_title` are their attributes as decoded; `timestamp_utc` is a truthy `UtcTime`, else the ISO time of `startTimeUnixNano` (`""` where that raises) |
| Preprocess.TimeFromUnixNano | preprocess.py:59-65 | `_safe_time_from_unix_nano`: the library's ISO time of `int(ns)` nanoseconds, and `""` where `int()` fails; `SpanToEventCopies` states its place as the fallback of `timestamp_utc` |
| Preprocess.ExtractedEvents | preprocess.py:98-104 | there is one event per span, in resourceSpans, scopeSpans, spans order, or the exception of the first span that raises |
| Preprocess.ExtractEventsFromOtlp | preprocess.py:98-104 | the nested loops compute exactly the span-wise mapping of the flattened payload, missing levels contributing nothing |
| Preprocess.ExtractWith | preprocess.py:98-104 | the three nested loops, for any per-span function, equal the mapping of the flattened span list, stopping at the first exception |
| Preprocess.TraceKey | preprocess.py:110 | the window key of an event is never empty: the truthy `trace_id`, else `no-trace:` and the span id; `GroupByTraceSpec` states that every event is grouped under it |
| Preprocess.Select | preprocess.py:109-111 | the events with a given key are exactly those events of the input with that key |
| Preprocess.GroupIntoGet | preprocess.py:107-112 | grouping appends to each key's list exactly the events with that key, in input order |
| Preprocess.GroupIntoKeys | preprocess.py:107-112 | a key is present after grouping exactly when it was before or some event has it |
| Preprocess.GroupIntoValid | preprocess.py:107-112 | grouping keeps the keys distinct and in step with the stored lists |
| Preprocess.GroupIntoNonEmpty | preprocess.py:107-112 | grouping never leaves an empty list behind |
| Preprocess.GroupIntoTotal | preprocess.py:107-112 | grouping adds exactly as many elements as there are events |
| Preprocess.GroupByTrace | preprocess.py:107-112 | the loop computes the grouping of the events from the empty dict |
| Preprocess.GroupKeyOrder | preprocess.py:107-112 | the keys of the grouped dict are in the order in which each key first appears among the events |
| Preprocess.GroupByTraceSpec | preprocess.py:107-112 | each event is in the list of its key (the truthy `trace_id`, else `no-trace:` and the span id); each list holds exactly its key's events in order and is non-empty; the sizes add up to the number of events |
| Preprocess.KindOf | preprocess.py:118-131 | the tag test raises exactly when `event_name` is None, a boolean or an integer |
| Preprocess.KindByTable | preprocess.py:118-131 | for a string event name the tag is the first rule, in the order DNS, NET, PROC+, PROC-, with a matching substring, and the fallback otherwise |
| Preprocess.LineFor | preprocess.py:117-134 | one line per event, never empty and starting with `[`; it raises exactly when the tag test does |
| Preprocess.LineTemplate | preprocess.py:117-134 | each line is the f-string of its tag (`Template`: `[DNS] `, `[NET] `, `[PROC+] `, `[PROC-] ` or `[<event_name>] `, each followed by the process name and the fields the source prints, in its order and with its separators) filled in from the event |
| Preprocess.DnsLineExample | preprocess.py:119-122 | a `Dnsquery` event from `svc.exe` for `evil.test` resolving to `1.2.3.4` gives `[DNS] svc.exe -> evil.test / result=1.2.3.4` |
| Preprocess.NonEmpty | preprocess.py:135 | the kept lines are exactly the non-empty lines |
| Preprocess.NonEmptyKeepsAll | preprocess.py:135 | when no line is empty, the filter keeps all of them in order |
| Preprocess.BuildCleanText | preprocess.py:115-135 | the loop computes the newline-joined lines of the events |
| Preprocess.CleanTextLines | preprocess.py:115-135 | empty input gives `""`; otherwise the text is the lines of the events, one per event in order, joined by newlines, unless some event's line raises |
| Preprocess.Member | preprocess.py:148-153 | a field contributes its value exactly when it is a non-empty string |
| Preprocess.Collect | preprocess.py:147-159 | the fold raises exactly when some event has a name, process name or query name whose truthy value is not a string (a list or dict raises `TypeError`; other non-string values are outside the model); otherwise each set is the union, over the events, of what its field contributes, and the flag says some event has one |
| Preprocess.CollectSpec | preprocess.py:147-159 | each set holds exactly the truthy values of its field over the events (ports as decimal strings, 0 excluded), and the flag is true exactly when some event has a truthy `sigma_alert` or `sigma_rule_title` |
| Preprocess.CollectRaised | preprocess.py:147-159 | after an event raises, later events have no effect |
| Preprocess.GatherSets | preprocess.py:147-159 | the loop over the events builds exactly the sets and flag of `Collect`, or stops with the exception of the first event that raises |
| Preprocess.BuildSummaryMeta | preprocess.py:138-169 | the lists are strictly increasing (sorted, without duplicates) and hold exactly the collected sets; the flag is the collected flag; `event_count` is the number of events; an exception is the fold's |
| Preprocess.CollectOrderFree | preprocess.py:147-159 | two orderings of the same events collect the same sets and flag |
| Preprocess.SummaryMetaOrderFree | preprocess.py:138-169 | the summary metadata does not depend on the order of the events |
| KafkaTraceConsumer.TraceAggregator.constructor | kafka_trace_consumer.py:16-20 | both maps start empty, and the limits are stored |
| KafkaTraceConsumer.TraceAggregator.AddPayload | kafka_trace_consumer.py:22-28 | the extracted events are appended, in order, to the lists of their keys, and each touched key's time becomes `now`; if the extraction raises nothing changes; the two maps keep the same keys in the same order and never hold an empty list |
| KafkaTraceConsumer.IsReady | kafka_trace_consumer.py:34-36 | the readiness test: idle for at least `inactivity`, or holding at least `max_events` events |
| KafkaTraceConsumer.ReadySet | kafka_trace_consumer.py:33-37 | the keys of `last_seen` whose window passes the readiness test at `now` |
| KafkaTraceConsumer.TouchAll | kafka_trace_consumer.py:25-28 | `last_seen[tid] = now` for each event in turn; its effect is stated by `TouchAllSpec` and `TouchAllKeys` |
| KafkaTraceConsumer.TouchAllSpec | kafka_trace_consumer.py:25-28 | a touched key has time `now`; an untouched key keeps its presence and its time |
| KafkaTraceConsumer.TouchAllKeys | kafka_trace_consumer.py:25-28 | appending to the buckets and stamping the times give the two maps the same key order |
| KafkaTraceConsumer.AlignedAdd | kafka_trace_consumer.py:26-28 | one event added to both maps keeps them aligned and their lists non-empty |
| KafkaTraceConsumer.AlignedWithout | kafka_trace_consumer.py:40-41 | popping the same keys from both maps keeps them aligned |
| KafkaTraceConsumer.TraceAggregator.SelectReady | kafka_trace_consumer.py:31-37 | the ready ids are exactly the keys, in `last_seen` order, idle for at least `inactivity` or holding at least `max_events` events |
| KafkaTraceConsumer.ReadyIdsCover | kafka_trace_consumer.py:33-37 | the list of ready ids has exactly the ready keys as elements |
| KafkaTraceConsumer.Windows | kafka_trace_consumer.py:38-43 | every returned pair is a ready key with its full list, never empty, and every ready key with a non-empty list is returned |
| KafkaTraceConsumer.TraceAggregator.PopReady | kafka_trace_consumer.py:30-44 | the ready windows are returned in key order with their full lists and removed from both maps; the other keys keep their lists and times; the maps stay aligned |
| KafkaTraceConsumer.PopConserves | kafka_trace_consumer.py:38-43 | the events before the pop are the events kept plus the events returned |
| KafkaTraceConsumer.WindowsVolume | kafka_trace_consumer.py:38-43 | the returned windows hold as many events as the popped keys' lists |
| KafkaTraceConsumer.PopIdempotent | kafka_trace_consumer.py:33-37 | after a pop, nothing is ready at the same instant, so a second pop at that instant returns no windows and leaves both maps as they are |
| KafkaTraceConsumer.FreshWindow | kafka_trace_consumer.py:27-40 | after a key is popped, later events with that key form a fresh list of only the new events |
| LanggraphNode.LabelOf | langgraph_node.py:127 | `meta.get("label", "unknown").lower()`: a missing label is `unknown`, a string is lowercased, anything else raises `AttributeError`; `Vote` and `TallyFails` state what the tally makes of it |
| LanggraphNode.Vote | langgraph_node.py:126-128 | a vote is one of the four known labels and is the lowercased label, with a missing label counted as `unknown` |
| LanggraphNode.CountLabels | langgraph_node.py:124-130 | the loop computes the counts and reasons of the vote, or its first exception |
| LanggraphNode.TallyCounts | langgraph_node.py:124-128 | each count is the number of entries whose lowercased label it names, a missing label counting as `unknown`, and the counts add up to the number of entries |
| LanggraphNode.TallyFails | langgraph_node.py:126-128 | the vote fails exactly when some label is not a string or lowercases to a label outside the four; such a label raises `KeyError` with the lowercased label |
| LanggraphNode.ReasonsEmpty | langgraph_node.py:129-130 | there are no reasons exactly when every label is `unknown` |
| LanggraphNode.ReasonsOrder | langgraph_node.py:125-130 | each label contributes its reason entry, if any, between those of the labels before and after it |
| LanggraphNode.ReasonsCount | langgraph_node.py:129-130 | there is one reason per label other than `unknown` |
| LanggraphNode.TallyReasons | langgraph_node.py:124-130 | there is no reason entry exactly when every entry's lowercased label is `unknown` or missing |
| LanggraphNode.TallyReasonCount | langgraph_node.py:124-130 | the reasons and the `unknown` count together make up the number of entries |
| LanggraphNode.BasePriority | langgraph_node.py:133-140 | `anomaly` iff some label is anomaly; `suspicious` iff none is anomaly and some is suspicious or none is normal; `normal` iff none is anomaly or suspicious and some is normal |
| LanggraphNode.ReasonTextParts | langgraph_node.py:143-150 | the reason is the distribution alone without reasons, and otherwise the distribution, `" / "` and the reasons joined by a vertical bar |
| LanggraphNode.LlmJudgment | langgraph_node.py:95-155 | with no similar logs the model is asked; otherwise the vote decides exactly when the tally succeeds and fails with the tally's own exception, and a decided state gets the voted decision, the output naming it and the combined reason, with nothing else changed |
| LanggraphNode.BaseLower | langgraph_node.py:133-140 | every voted decision is already lower case |
| LanggraphNode.FinalDecision | langgraph_node.py:159-172 | the gate of `final_decision`; `FinalDecisionGate` states when it passes the state through and which pairs it re-judges |
| LanggraphNode.FinalDecisionGate | langgraph_node.py:159-172 | the state passes unchanged exactly when the lowercased decision (default `unknown`) is not `suspicious`; otherwise at most five log and metadata pairs, matched by position, are re-judged, and none when there are no logs |
| LanggraphNode.Zip | langgraph_node.py:171 | `zip` pairs the elements position by position, up to the shorter list |
| LanggraphNode.VoteThenGate | langgraph_node.py:155-162 | after the vote, the final step passes the state through exactly when the vote is not `suspicious` |
| LanggraphNode.DropOpeningFence | langgraph_node.py:109 | the substitution of `^```[a-zA-Z]*\n?`; its effect is stated by `OpeningFenceShape` |
| LanggraphNode.DropClosingFence | langgraph_node.py:110 | the substitution of `\n?```$`; its effect is stated by `ClosingFenceShape` |
| LanggraphNode.StripFences | langgraph_node.py:109-110 | the two substitutions on stripped text; `StripFencesNoFence` and `StripFencesBlock` state what they give |
| LanggraphNode.OpeningFenceShape | langgraph_node.py:109 | the opening substitution removes a fence, a run of ASCII letters and at most one newline from the front, and nothing when there is no fence |
| LanggraphNode.ClosingFenceShape | langgraph_node.py:110 | the closing substitution removes a fence and the newline before it, if any, from the end, and nothing when there is no fence |
| LanggraphNode.StripFencesNoFence | langgraph_node.py:109-110 | a reply with no fence is only stripped of white space |
| LanggraphNode.StripFencesBlock | langgraph_node.py:198-199 | a fenced block with a language tag gives back its body, when the body has no white space at either end |
| Text.Strip | langgraph_node.py:109-110 | `strip()`: the result neither starts nor ends with white space; `StripMiddle` states that it is what is left of the text once the white space at both ends is cut off |
| Text.StripMiddle | langgraph_node.py:109-110 | `strip()` gives a slice of the text whose cut-off characters at both ends are all white space |
| Text.StripIdempotent | langgraph_node.py:109-110 | `strip` applied twice equals `strip` applied once |
| Text.Split | preprocess.py:32 | `s.split(sep)`; `SplitPiecesWithout` states that no piece contains `sep`, `JoinSplit` that the pieces joined give `s` back, and `LastPiece` and `FirstPiece` which pieces the program takes |
| Text.SplitPiecesWithout | preprocess.py:32 | no piece of `s.split(sep)` contains `sep` |
| Text.LastPiece | preprocess.py:32 | `s.split(sep)[-1]` holds no `sep` and ends `s`, right after a `sep` when `s` was cut at all |
| Text.FirstPiece | preprocess.py:49 | `s.split(c)[0]` is the text before the first `c`, or all of `s` without one |
| Text.JoinSplit | preprocess.py:32 | joining the pieces of a split with the same separator gives the string back |
| Text.Join | preprocess.py:135 | `sep.join(parts)`; `JoinSplit` states that it inverts `Split`, and `CleanTextLines` and `ReasonTextParts` state the texts joined with it |
| Text.SplitWithout | preprocess.py:51 | a string without the separator is its own single piece |
| Text.Lower | langgraph_node.py:127 | `lower()` keeps the length and lowercases each ASCII letter in place |
| Text.SplitOnce | preprocess.py:72 | `split(c, 1)` gives the text before the first `c` and the rest |
| Text.Replace | preprocess.py:32 | `s.replace(a, b)` for single characters: the same length, with every `a` and nothing else turned into `b` |
| Text.Sorted | preprocess.py:162-166 | `sorted` of a set is strictly increasing and holds exactly the set's elements |
| Text.IncreasingUnique | preprocess.py:162-166 | two strictly increasing lists with the same elements are equal |
| Python.ToInt | preprocess.py:36-39 | `int(v)` of an integer, a boolean or a string, and none where Python raises, up to the digit limit admitted under "## Left out"; a string is read after `IntStrip` removes the white space `int()` skips; `ParseIntToString` is its round trip and `ParseIntSeparators` pins down the white space |
| Python.IntStrip | preprocess.py:36-37 | the text `int()` reads neither starts nor ends with the white space it skips: `str.isspace()` characters other than U+001C..U+001F |
| Python.ParseIntSeparators | preprocess.py:36-37 | a separator U+001C..U+001F before or after the text makes `int()` raise, although `strip()` removes it; other white space that `int()` skips leaves the result unchanged |
| Preprocess.PortFixPadding | preprocess.py:35-39 | a port string padded with white space that `int()` skips gives the same port; a U+001C..U+001F separator at either end gives none |
| Python.Show | preprocess.py:119-134 | the f-string rendering of a value: a string as itself, and an integer as decimal text that `int()` reads back as the integer |
| Python.Truthy | preprocess.py:30 | `bool(v)`: None, `False`, `0`, `""`, `[]` and `{}` are false and every other value true; `Or`, `Basename` and `IpOrNoneCases` state the branches that test it |
| Python.Or | preprocess.py:77-93 | `a or b` is `a` when `a` is truthy and `b` otherwise |
| Python.ParseIntToString | preprocess.py:13-14 | `int(str(i)) == i`, with no limit on the number of digits (see `Python.ToInt` under "## Left out") |
| Python.In | preprocess.py:119 | `in` raises `TypeError` on None, booleans and integers, and is the substring test on a string |
| Python.MapAllSpec | preprocess.py:100-103 | a mapping that may raise maps every element when none raises, and otherwise gives the exception of the first element that does |
| Dicts.Dict.Set | kafka_trace_consumer.py:28 | item assignment keeps keys distinct; a new key goes last and an existing key keeps its place |
| Dicts.Dict.Without | kafka_trace_consumer.py:40-41 | `pop` of a set of keys removes exactly those keys, keeps the remaining keys in their order and leaves the other values unchanged |
| Dicts.Append | preprocess.py:111 | `setdefault(k, []).append(x)` keeps the dict well formed; `AppendTotal` states that it adds one element in total and `GroupIntoGet` that each key's list gains exactly its events in order |
| Dicts.AppendTotal | preprocess.py:111 | `setdefault(k, []).append(x)` adds exactly one element in total |
| Dicts.WithoutTotal | kafka_trace_consumer.py:40-41 | popping keys moves exactly the sizes of their lists out of the total |

## Left out

- Network I/O, the Kafka consumer loop `run`, the vector store, embeddings and every call to the language model are not modelled. The branch of `llm_judgment` with no similar logs only reports that the model is asked (`Judgment.AsksModel`). The re-judgement of `final_decision` is represented by the pairs it would show the model.
- The prompt texts are not modelled. This includes the summary string built from the pairs (`langgraph_node.py:170-172`) and the `" ".join(state["cleaned_trace"])` query.
- `json.loads`, and the `decision`/`reason` fields read from a model reply, are not modelled.
- `llm_judgment` assigns `decision = base_decision` in one branch (`langgraph_node.py:147-148`). This local is never read, so the model omits it.
- Time is a parameter. `time.time()` becomes the `now` argument of `AddPayload` and `PopReady`, and times are `real`. Floating-point rounding of `now - ts` is not modelled.
- There is no concurrency: the store is used by a single thread.
- `ipaddress.ip_address` is an opaque predicate `Stdlib.ipAddress`. `datetime.fromtimestamp(...).isoformat()` is an opaque function `Stdlib.isoFromUnixNano`, taken to give `""` where the library raises.
- `repr` of a list or dict inside an f-string is the opaque function `Stdlib.repr`. None, booleans, integers and strings are rendered exactly.
- JSON numbers are integers. Floating-point attribute values are not modelled.
- Text.Lower: `str.lower` is modelled for ASCII letters only; other letters are left as they are.
- Python.ToInt: `int()` also accepts non-ASCII decimal digits, such as Arabic-Indic digits. The model reads only `0`-`9` and gives none for the others. Python 3.11 and later also make `int()` of a string with more than 4300 digits raise `ValueError` by default, and `str()` of such an integer too (`sys.set_int_max_str_digits` changes the limit). The model has no digit limit: it reads such a string, so `PortFix` and `AttrValue` give a number where the source gives `None` or the raw string, and `ParseIntToString` holds for every integer.
- Python.ParseIntToString: holds for integers of any length, because the model has none of Python's digit limit on `str()` and `int()`.
- The span envelope is typed. `traceId`, `spanId` and `name` are strings or absent; `attributes`, `resourceSpans`, `scopeSpans` and `spans` are lists or absent; an attribute entry is a key/value record. A span or entry of another JSON type, which makes the source raise `AttributeError` or `TypeError`, is therefore not representable. Attribute values and keys themselves are arbitrary JSON values.
- The events that reach `build_clean_text` and `build_summary_meta` are the records of `span_to_event`. Their filtered fields have the filters' types: IPs are strings or none, ports integers or none. Arbitrary dicts are not accepted.
- Preprocess.Collect: a truthy integer or boolean `event_name`, `process_name` or `query_name` is reported as `Unsupported`. The source would add it to the set. `sorted` would then raise `TypeError` when the set also holds a string, and would order the numbers when it holds no string. A list or dict raises `TypeError` as in the source.
- Preprocess.BuildSummaryMeta: its exception for such a value is the `Unsupported` of `Preprocess.Collect`, not the source's `sorted` result.
- Preprocess.ExtractWith: the loops are proved for any per-span function, and `ExtractEventsFromOtlp` instantiates it with `span_to_event`. This is the same computation.
- `LogMeta` holds only the `label` and `reason` entries of a metadata dict. A metadata entry that is not a dict is not representable.
