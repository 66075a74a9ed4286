/** `preprocess.py`: OTLP spans as JSON become flat Sysmon-style event records,
    events are grouped per trace, and each trace is rendered as narrative text
    and as summary metadata. */
module Preprocess {
  import opened Text
  import opened Python
  import opened Dicts

  // ---------------------------------------------------------------------
  // The OTLP/JSON envelope
  // ---------------------------------------------------------------------

  /** One `{"key": ..., "value": ...}` attribute entry; a missing `key` reads
      as `None`, a missing `value` as `{}`. */
  datatype Entry = Entry(key: Value, value: Option<Value>)

  /** A span; `None` stands for a field that is missing or `null`. */
  datatype Span = Span(
    traceId: Option<string>,
    spanId: Option<string>,
    name: Option<string>,
    startTimeUnixNano: Option<Value>,
    attributes: Option<seq<Entry>>)

  datatype ScopeSpans = ScopeSpans(spans: Option<seq<Span>>)
  datatype ResourceSpans = ResourceSpans(scopeSpans: Option<seq<ScopeSpans>>)
  datatype Payload = Payload(resourceSpans: Option<seq<ResourceSpans>>)

  /** `x or []` for a list field that may be missing or `null`. */
  function OrEmpty<T>(o: Option<seq<T>>): seq<T> {
    o.GetOr([])
  }

  /** The record `span_to_event` builds. Fields whose value is produced by a
      filter of known type are typed; the rest are decoded attribute values. */
  datatype Event = Event(
    traceId: Option<string>,
    spanId: Option<string>,
    eventName: Value,
    timestampLocal: Value,
    timestampUtc: Value,
    processName: Value,
    processPath: Value,
    processId: Value,
    protocol: Value,
    sourceIp: Option<string>,
    sourcePort: Option<int>,
    destinationIp: Option<string>,
    destinationPort: Option<int>,
    queryName: Value,
    queryResults: Value,
    commandLine: Value,
    sigmaAlert: Value,
    sigmaRuleTitle: Value)

  // ---------------------------------------------------------------------
  // Attribute values
  // ---------------------------------------------------------------------

  /** `_attr_value`: unwraps an OTLP tagged value. `stringValue` is taken
      first, then `intValue` (as an integer when `int()` accepts it, else
      as it stands), then `boolValue` (through `bool()`); anything else is
      returned as it is. */
  function AttrValue(v: Value): (r: Value)
    ensures r != v ==> v.VDict? && ("stringValue" in v.entries || "intValue" in v.entries || "boolValue" in v.entries)
  {
    match v
    case VDict(m) =>
      if "stringValue" in m then m["stringValue"]
      else if "intValue" in m then
        (match ToInt(m["intValue"])
         case Some(i) => VInt(i)
         case None => m["intValue"])
      else if "boolValue" in m then VBool(Truthy(m["boolValue"]))
      else v
    case _ => v
  }

  /** How an OTLP/JSON exporter tags a scalar: integers travel as decimal text. */
  function Tagged(v: Value): Value {
    match v
    case VStr(_) => VDict(map["stringValue" := v])
    case VInt(i) => VDict(map["intValue" := VStr(IntToString(i))])
    case VBool(_) => VDict(map["boolValue" := v])
    case _ => v
  }

  /** Decoding undoes the exporter's tagging of a string, integer or boolean. */
  lemma AttrValueTagged(v: Value)
    requires v.VStr? || v.VInt? || v.VBool?
    ensures AttrValue(Tagged(v)) == v
  {
    if v.VInt? {
      ParseIntToString(v.i);
    }
  }

  /** A tag of higher priority hides the others; an integer that `int()`
      rejects is returned undecoded; an untagged dict passes through. */
  lemma AttrValuePriority(m: map<string, Value>)
    ensures "stringValue" in m ==> AttrValue(VDict(m)) == m["stringValue"]
    ensures "stringValue" !in m && "intValue" in m && ToInt(m["intValue"]).None? ==> AttrValue(VDict(m)) == m["intValue"]
    ensures "stringValue" !in m && "intValue" in m && ToInt(m["intValue"]).Some? ==>
      AttrValue(VDict(m)) == VInt(ToInt(m["intValue"]).value)
    ensures "stringValue" !in m && "intValue" !in m && "boolValue" in m ==>
      AttrValue(VDict(m)) == VBool(Truthy(m["boolValue"]))
    ensures "stringValue" !in m && "intValue" !in m && "boolValue" !in m ==> AttrValue(VDict(m)) == VDict(m)
  {
  }

  predicate Matches(kv: Entry, key: string) {
    kv.key == VStr(key)
  }

  /** `_attr_value(kv.get("value", {}))` */
  function Decoded(kv: Entry): Value {
    AttrValue(kv.value.GetOr(VDict(map[])))
  }

  /** Some entry carries `key`. */
  predicate Present(attrs: seq<Entry>, key: string) {
    exists i :: 0 <= i < |attrs| && Matches(attrs[i], key)
  }

  /** `_get_attr(attrs, key, default)` over `attrs or []`: the decoded value of
      the first entry whose key is `key`, and `default` only when none is. */
  function GetAttr(attrs: seq<Entry>, key: string, default: Value): (r: Value)
    ensures !Present(attrs, key) ==> r == default
    ensures forall i :: 0 <= i < |attrs| && Matches(attrs[i], key) && (forall j :: 0 <= j < i ==> !Matches(attrs[j], key)) ==> r == Decoded(attrs[i])
  {
    if attrs == [] then default
    else if Matches(attrs[0], key) then Decoded(attrs[0])
    else
      assert forall i :: 1 <= i < |attrs| ==> attrs[1..][i - 1] == attrs[i];
      GetAttr(attrs[1..], key, default)
  }

  /** When the key is present the default plays no part. */
  lemma {:induction false} GetAttrPresent(attrs: seq<Entry>, key: string, d1: Value, d2: Value)
    requires Present(attrs, key)
    ensures GetAttr(attrs, key, d1) == GetAttr(attrs, key, d2)
  {
    if !Matches(attrs[0], key) {
      var i :| 0 <= i < |attrs| && Matches(attrs[i], key);
      assert Matches(attrs[1..][i - 1], key);
      GetAttrPresent(attrs[1..], key, d1, d2);
    }
  }

  // ---------------------------------------------------------------------
  // Small filters
  // ---------------------------------------------------------------------

  /** `_basename(p)`: a falsy value comes back as it is; a string has its `\`
      turned into `/` and keeps what follows the last `/`; any other truthy
      value has no `replace` and raises `AttributeError`. */
  function Basename(v: Value): (r: Outcome<Value>)
    ensures !Truthy(v) ==> r == Ok(v)
    ensures r.Raised? <==> Truthy(v) && !v.VStr?
    ensures r.Ok? ==> r.value.VStr? == v.VStr?
  {
    if !Truthy(v) then Ok(v)
    else
      match v
      case VStr(p) => Ok(VStr(Last(Split(Replace(p, '\\', '/'), "/"))))
      case _ => Raised(AttributeError)
  }

  /** The basename of a path has no separator of either kind and, once `\`
      is read as `/`, is the text after the last `/` (the whole path when
      there is none). */
  lemma BasenameOfPath(p: string)
    ensures Basename(VStr(p)).Ok? && Basename(VStr(p)).value.VStr?
    ensures var b := Basename(VStr(p)).value.s;
      var t := Replace(p, '\\', '/');
      && '/' !in b && '\\' !in b
      && (exists w :: t == w + b)
      && ('/' !in t ==> b == t)
      && ('/' in t ==> exists w :: t == w + "/" + b)
  {
    var t := Replace(p, '\\', '/');
    if p != "" {
      var b := Last(Split(t, "/"));
      LastPiece(t, "/");
      OccursChar(b, '/');
      var w :| t == w + b;
      forall i | 0 <= i < |b| ensures b[i] != '\\' {
        assert b[i] == t[|w| + i];
      }
      if |Split(t, "/")| < 2 {
        SplitFromSingle(t, "/", "");
        assert "" + t == t;
        assert b == t;
      }
    } else {
      assert t == "" + "";
    }
  }

  /** Taking the basename twice is taking it once. */
  lemma BasenameIdempotent(v: Value)
    requires Basename(v).Ok?
    ensures Basename(Basename(v).value) == Basename(v)
  {
    if Truthy(v) {
      BasenameOfPath(v.s);
      var b := Basename(v).value.s;
      if b != "" {
        assert Replace(b, '\\', '/') == b;
        OccursChar(b, '/');
        SplitWithout(b, "/");
      }
    }
  }

  /** `_port_fix(p)`: `int(p)`, a negative port wrapped by adding 65536 and
      reducing modulo 65536, a port in 0..65535 kept, anything else `None`. */
  function PortFix(v: Value): (r: Option<int>)
    ensures r.Some? ==> 0 <= r.value <= 65535
    ensures ToInt(v).Some? && 0 <= ToInt(v).value <= 65535 ==> r == ToInt(v)
    ensures ToInt(v).Some? && ToInt(v).value < 0 ==> r == Some(ToInt(v).value % 65536)
    ensures r.None? <==> ToInt(v).None? || ToInt(v).value > 65535
  {
    match ToInt(v)
    case None => None
    case Some(p) =>
      if p < 0 then Some((p + 65536) % 65536)
      else if p <= 65535 then Some(p)
      else None
  }

  /** Padding a port string with white space that `int()` skips changes
      nothing; a separator U+001C..U+001F at either end gives `None`. */
  lemma PortFixPadding(c: char, s: string)
    ensures IntSpace(c) ==> PortFix(VStr([c] + s)) == PortFix(VStr(s)) && PortFix(VStr(s + [c])) == PortFix(VStr(s))
    ensures '\U{1C}' <= c <= '\U{1F}' ==> PortFix(VStr([c] + s)) == None && PortFix(VStr(s + [c])) == None
  {
    if IntSpace(c) {
      PortFixSkipped(c, s);
    }
    if '\U{1C}' <= c <= '\U{1F}' {
      PortFixSeparator(c, s);
    }
  }

  lemma PortFixSkipped(c: char, s: string)
    requires IntSpace(c)
    ensures PortFix(VStr([c] + s)) == PortFix(VStr(s)) && PortFix(VStr(s + [c])) == PortFix(VStr(s))
  {
    var x := [c] + s;
    var y := s + [c];
    IntSpaceSkipped(c, s);
    PortFixOfInt(VStr(x), VStr(s));
    PortFixOfInt(VStr(y), VStr(s));
  }

  /** `_port_fix` looks at a value only through `int()`. */
  lemma PortFixOfInt(v: Value, w: Value)
    requires ToInt(v) == ToInt(w)
    ensures PortFix(v) == PortFix(w)
  {
  }

  lemma PortFixSeparator(c: char, s: string)
    requires '\U{1C}' <= c <= '\U{1F}'
    ensures PortFix(VStr([c] + s)) == None && PortFix(VStr(s + [c])) == None
  {
    var x := [c] + s;
    var y := s + [c];
    SeparatorFirst(c, s);
    SeparatorLast(c, s);
    assert ToInt(VStr(x)) == None;
    assert ToInt(VStr(y)) == None;
  }

  /** `_ip_or_none(s)`: a falsy value gives `None`; a string whose text before
      the first `%` is an IP literal comes back whole; otherwise a string that
      starts with `::ffff:` gives the last piece of its `split("::ffff:")`; anything else
      gives `None`. A non-string truthy value has no `split`, and the
      resulting exception also ends in `None`. */
  function IpOrNone(v: Value, lib: Stdlib): (r: Option<string>)
    ensures r.Some? ==> v.VStr? && v.s != "" && exists w :: v.s == w + r.value
  {
    if !Truthy(v) then None
    else
      match v
      case VStr(s) =>
        if lib.ipAddress(Split(s, "%")[0]) then
          assert s == "" + s;
          Some(s)
        else if StartsWith(s, "::ffff:") then
          LastPiece(s, "::ffff:");
          Some(Last(Split(s, "::ffff:")))
        else None
      case _ => None
  }

  /** The four outcomes of the IP filter. */
  lemma IpOrNoneCases(v: Value, lib: Stdlib)
    ensures !Truthy(v) ==> IpOrNone(v, lib).None?
    ensures v.VStr? && v.s != "" ==>
      var zoneless := if '%' in v.s then SplitOnce(v.s, '%').0 else v.s;
      && '%' !in zoneless && StartsWith(v.s, zoneless)
      && (lib.ipAddress(zoneless) ==> IpOrNone(v, lib) == Some(v.s))
      && (!lib.ipAddress(zoneless) && StartsWith(v.s, "::ffff:") ==>
            IpOrNone(v, lib).Some? && !Occurs(IpOrNone(v, lib).value, "::ffff:")
            && exists w :: v.s == w + "::ffff:" + IpOrNone(v, lib).value)
      && (!lib.ipAddress(zoneless) && !StartsWith(v.s, "::ffff:") ==> IpOrNone(v, lib).None?)
  {
    if v.VStr? && v.s != "" {
      var s := v.s;
      FirstPiece(s, '%');
      if '%' in s {
        var z := SplitOnce(s, '%').0;
        assert s[..|z|] == z;
      } else {
        assert s[..|s|] == s;
      }
      if StartsWith(s, "::ffff:") {
        LastPiece(s, "::ffff:");
        SplitCuts(s, "::ffff:");
      }
    }
  }

  /** `_safe_time_from_unix_nano(ns)`: the ISO time of `int(ns)` nanoseconds
      after the epoch, and `""` where that raises. */
  function TimeFromUnixNano(v: Value, lib: Stdlib): string {
    match ToInt(v)
    case Some(n) => lib.isoFromUnixNano(n)
    case None => ""
  }

  // ---------------------------------------------------------------------
  // Span to event
  // ---------------------------------------------------------------------

  /** `(name.split("@", 1) + [None])[:2] if "@" in name else (None, None)` */
  function NameParts(name: string): (r: (Option<string>, Option<string>))
    ensures r.0.Some? <==> '@' in name
    ensures r.1.Some? <==> '@' in name
    ensures '@' in name ==> name == r.0.value + "@" + r.1.value && '@' !in r.0.value
  {
    if '@' in name then
      var p := SplitOnce(name, '@');
      (Some(p.0), Some(p.1))
    else (None, None)
  }

  /** `span_to_event(span)`. The one exception it can raise is the basename
      of a truthy non-string `Image` when the span name gives no process. */
  function SpanToEvent(span: Span, lib: Stdlib): Outcome<Event> {
    var attrs := OrEmpty(span.attributes);
    var parts := NameParts(span.name.GetOr(""));
    var fromName := parts.0.GetOr("");
    var processName :=
      if fromName != "" then Ok(VStr(fromName))
      else Basename(GetAttr(attrs, "Image", VNone));
    match processName
    case Raised(e) => Raised(e)
    case Ok(pn) =>
      Ok(Event(
        traceId := span.traceId,
        spanId := span.spanId,
        eventName := Or(GetAttr(attrs, "EventName", TextOrNone(parts.1)), VStr("")),
        timestampLocal := GetAttr(attrs, "TimeStamp", VNone),
        timestampUtc := Or(GetAttr(attrs, "UtcTime", VNone),
                           VStr(TimeFromUnixNano(span.startTimeUnixNano.GetOr(VStr("")), lib))),
        processName := pn,
        processPath := GetAttr(attrs, "Image", VNone),
        processId := GetAttr(attrs, "ProcessId", VNone),
        protocol := GetAttr(attrs, "Protocol", VNone),
        sourceIp := IpOrNone(GetAttr(attrs, "SourceIp", VNone), lib),
        sourcePort := PortFix(GetAttr(attrs, "SourcePort", VNone)),
        destinationIp := IpOrNone(GetAttr(attrs, "DestinationIp", VNone), lib),
        destinationPort := PortFix(GetAttr(attrs, "DestinationPort", VNone)),
        queryName := GetAttr(attrs, "QueryName", VNone),
        queryResults := GetAttr(attrs, "QueryResults", VNone),
        commandLine := GetAttr(attrs, "CommandLine", VNone),
        sigmaAlert := Or(GetAttr(attrs, "sigma.alert", VNone), GetAttr(attrs, "sigma@alert", VNone)),
        sigmaRuleTitle := GetAttr(attrs, "sigma.rule_title", VNone)))
  }

  /** The part of the span name before the first `@`, when there is one. */
  function NameHead(span: Span): string {
    var name := span.name.GetOr("");
    if '@' in name then SplitOnce(name, '@').0 else ""
  }

  /** The part of the span name after the first `@`, when there is one. */
  function NameTail(span: Span): Option<string> {
    var name := span.name.GetOr("");
    if '@' in name then Some(SplitOnce(name, '@').1) else None
  }

  /** How each field of the event is chosen. */
  lemma SpanToEventFields(span: Span, lib: Stdlib)
    ensures var attrs := OrEmpty(span.attributes);
      var image := GetAttr(attrs, "Image", VNone);
      var r := SpanToEvent(span, lib);
      && (r.Raised? <==> NameHead(span) == "" && Truthy(image) && !image.VStr?)
      && (r.Ok? ==>
        var e := r.value;
        && e.traceId == span.traceId && e.spanId == span.spanId
        && (Present(attrs, "EventName") ==> e.eventName == Or(GetAttr(attrs, "EventName", VNone), VStr("")))
        && (!Present(attrs, "EventName") ==>
              e.eventName == if NameTail(span).Some? && NameTail(span).value != "" then VStr(NameTail(span).value) else VStr(""))
        && (NameHead(span) != "" ==> e.processName == VStr(NameHead(span)))
        && (NameHead(span) == "" ==> Ok(e.processName) == Basename(image))
        && e.processPath == image
        && (Truthy(GetAttr(attrs, "sigma.alert", VNone)) ==> e.sigmaAlert == GetAttr(attrs, "sigma.alert", VNone))
        && (!Truthy(GetAttr(attrs, "sigma.alert", VNone)) ==> e.sigmaAlert == GetAttr(attrs, "sigma@alert", VNone))
        && e.sourcePort == PortFix(GetAttr(attrs, "SourcePort", VNone))
        && e.destinationPort == PortFix(GetAttr(attrs, "DestinationPort", VNone))
        && e.sourceIp == IpOrNone(GetAttr(attrs, "SourceIp", VNone), lib)
        && e.destinationIp == IpOrNone(GetAttr(attrs, "DestinationIp", VNone), lib))
  {
    var attrs := OrEmpty(span.attributes);
    var parts := NameParts(span.name.GetOr(""));
    if Present(attrs, "EventName") {
      GetAttrPresent(attrs, "EventName", TextOrNone(parts.1), VNone);
    }
  }

  /** The fields copied from single attributes, and the two sources of
      `timestamp_utc`: a truthy `UtcTime`, else the converted start time. */
  lemma SpanToEventCopies(span: Span, lib: Stdlib)
    requires SpanToEvent(span, lib).Ok?
    ensures var attrs := OrEmpty(span.attributes);
      var e := SpanToEvent(span, lib).value;
      var utc := GetAttr(attrs, "UtcTime", VNone);
      && e.timestampLocal == GetAttr(attrs, "TimeStamp", VNone)
      && (Truthy(utc) ==> e.timestampUtc == utc)
      && (!Truthy(utc) ==> e.timestampUtc == VStr(TimeFromUnixNano(span.startTimeUnixNano.GetOr(VStr("")), lib)))
      && e.processId == GetAttr(attrs, "ProcessId", VNone)
      && e.protocol == GetAttr(attrs, "Protocol", VNone)
      && e.queryName == GetAttr(attrs, "QueryName", VNone)
      && e.queryResults == GetAttr(attrs, "QueryResults", VNone)
      && e.commandLine == GetAttr(attrs, "CommandLine", VNone)
      && e.sigmaRuleTitle == GetAttr(attrs, "sigma.rule_title", VNone)
  {
  }

  // ---------------------------------------------------------------------
  // Flattening a payload
  // ---------------------------------------------------------------------

  /** The spans of a list of scope-span blocks, in order. */
  function ScopeListSpans(sss: seq<ScopeSpans>): seq<Span> {
    if sss == [] then []
    else ScopeListSpans(sss[..|sss| - 1]) + OrEmpty(sss[|sss| - 1].spans)
  }

  /** The spans of a list of resource-span blocks, in order. */
  function ResourceListSpans(rss: seq<ResourceSpans>): seq<Span> {
    if rss == [] then []
    else ResourceListSpans(rss[..|rss| - 1]) + ScopeListSpans(OrEmpty(rss[|rss| - 1].scopeSpans))
  }

  /** Every span of the payload, resourceSpans by scopeSpans by spans. */
  function PayloadSpans(p: Payload): seq<Span> {
    ResourceListSpans(OrEmpty(p.resourceSpans))
  }

  lemma {:induction false} ScopeListSpansAppend(a: seq<ScopeSpans>, b: seq<ScopeSpans>)
    ensures ScopeListSpans(a + b) == ScopeListSpans(a) + ScopeListSpans(b)
  {
    if b == [] {
      assert a + b == a;
    } else {
      var init := b[..|b| - 1];
      ScopeListSpansAppend(a, init);
      assert (a + b)[..|a + b| - 1] == a + init;
      assert (a + b)[|a + b| - 1] == b[|b| - 1];
      var last := OrEmpty(b[|b| - 1].spans);
      assert ScopeListSpans(a + b) == ScopeListSpans(a + init) + last;
      assert ScopeListSpans(b) == ScopeListSpans(init) + last;
      assert (ScopeListSpans(a) + ScopeListSpans(init)) + last == ScopeListSpans(a) + (ScopeListSpans(init) + last);
    }
  }

  /** Concatenated blocks contribute their spans one after the other. */
  lemma {:induction false} ResourceListSpansAppend(a: seq<ResourceSpans>, b: seq<ResourceSpans>)
    ensures ResourceListSpans(a + b) == ResourceListSpans(a) + ResourceListSpans(b)
  {
    if b == [] {
      assert a + b == a;
    } else {
      var init := b[..|b| - 1];
      ResourceListSpansAppend(a, init);
      assert (a + b)[..|a + b| - 1] == a + init;
      assert (a + b)[|a + b| - 1] == b[|b| - 1];
      var last := ScopeListSpans(OrEmpty(b[|b| - 1].scopeSpans));
      assert ResourceListSpans(a + b) == ResourceListSpans(a + init) + last;
      assert ResourceListSpans(b) == ResourceListSpans(init) + last;
      assert (ResourceListSpans(a) + ResourceListSpans(init)) + last == ResourceListSpans(a) + (ResourceListSpans(init) + last);
    }
  }

  /** Block `i` contributes its spans between those before and after it. */
  lemma ResourceCut(rss: seq<ResourceSpans>, i: nat)
    requires i < |rss|
    ensures ResourceListSpans(rss)
      == ResourceListSpans(rss[..i]) + ScopeListSpans(OrEmpty(rss[i].scopeSpans)) + ResourceListSpans(rss[i + 1..])
  {
    assert rss == rss[..i + 1] + rss[i + 1..];
    ResourceListSpansAppend(rss[..i + 1], rss[i + 1..]);
    ResourceListSpansStep(rss, i);
  }

  /** Scope block `j` contributes its spans between those before and after it. */
  lemma ScopeCut(sss: seq<ScopeSpans>, j: nat)
    requires j < |sss|
    ensures ScopeListSpans(sss)
      == ScopeListSpans(sss[..j]) + OrEmpty(sss[j].spans) + ScopeListSpans(sss[j + 1..])
  {
    assert sss == sss[..j + 1] + sss[j + 1..];
    ScopeListSpansAppend(sss[..j + 1], sss[j + 1..]);
    ScopeListSpansStep(sss, j);
  }

  /** Where span `k` of scope block `j` of block `i` stands in the payload. */
  lemma PayloadCut(rss: seq<ResourceSpans>, i: nat, j: nat, k: nat)
    requires i < |rss|
    requires j < |OrEmpty(rss[i].scopeSpans)|
    requires k <= |OrEmpty(OrEmpty(rss[i].scopeSpans)[j].spans)|
    ensures var sss := OrEmpty(rss[i].scopeSpans); var spans := OrEmpty(sss[j].spans);
      ResourceListSpans(rss)
      == ResourceListSpans(rss[..i]) + ScopeListSpans(sss[..j]) + spans[..k]
         + (spans[k..] + ScopeListSpans(sss[j + 1..]) + ResourceListSpans(rss[i + 1..]))
  {
    var sss := OrEmpty(rss[i].scopeSpans);
    var spans := OrEmpty(sss[j].spans);
    ResourceCut(rss, i);
    ScopeCut(sss, j);
    assert spans == spans[..k] + spans[k..];
  }

  lemma ScopeListSpansStep(sss: seq<ScopeSpans>, j: nat)
    requires j < |sss|
    ensures ScopeListSpans(sss[..j + 1]) == ScopeListSpans(sss[..j]) + OrEmpty(sss[j].spans)
  {
    assert sss[..j + 1][..j] == sss[..j];
  }

  lemma ResourceListSpansStep(rss: seq<ResourceSpans>, i: nat)
    requires i < |rss|
    ensures ResourceListSpans(rss[..i + 1]) == ResourceListSpans(rss[..i]) + ScopeListSpans(OrEmpty(rss[i].scopeSpans))
  {
    assert rss[..i + 1][..i] == rss[..i];
  }

  /** `span_to_event` as a function value. */
  function SpanFn(lib: Stdlib): Span -> Outcome<Event> {
    s => SpanToEvent(s, lib)
  }

  /** The events of a list of spans, or the first exception. */
  function Normalize(spans: seq<Span>, lib: Stdlib): Outcome<seq<Event>> {
    MapAll(spans, SpanFn(lib))
  }

  /** `extract_events_from_otlp` yields one event per span, in span order, or
      fails with the exception of the first span that raises. */
  lemma ExtractedEvents(p: Payload, lib: Stdlib)
    ensures var spans := PayloadSpans(p); var r := Normalize(spans, lib);
      && (r.Ok? <==> forall i :: 0 <= i < |spans| ==> SpanToEvent(spans[i], lib).Ok?)
      && (r.Ok? ==> |r.value| == |spans| && forall i :: 0 <= i < |spans| ==> SpanToEvent(spans[i], lib) == Ok(r.value[i]))
      && (r.Raised? ==> exists i :: 0 <= i < |spans| && SpanToEvent(spans[i], lib) == Raised(r.error)
                                    && forall j :: 0 <= j < i ==> SpanToEvent(spans[j], lib).Ok?)
  {
    var spans := PayloadSpans(p);
    var f := SpanFn(lib);
    MapAllSpec(spans, f);
    var r := MapAll(spans, f);
    assert forall i :: 0 <= i < |spans| ==> f(spans[i]) == SpanToEvent(spans[i], lib);
    if r.Raised? {
      var i :| 0 <= i < |spans| && f(spans[i]) == Raised(r.error) && forall j :: 0 <= j < i ==> f(spans[j]).Ok?;
    }
  }

  /** The innermost loop of `extract_events_from_otlp`, carried over span `k`. */
  lemma SpanStep(done: seq<Span>, spans: seq<Span>, k: nat, f: Span -> Outcome<Event>, events: seq<Event>)
    requires k < |spans| && MapAll(done + spans[..k], f) == Ok(events)
    ensures MapAll(done + spans[..k + 1], f) == match f(spans[k])
      case Raised(e) => Raised(e)
      case Ok(y) => Ok(events + [y])
  {
    MapAllSnoc(done + spans[..k], spans[k], f);
    assert done + spans[..k] + [spans[k]] == done + spans[..k + 1];
  }

  /** A span that raises ends the whole payload with its exception. */
  lemma SpanHalt(rss: seq<ResourceSpans>, i: nat, j: nat, k: nat, f: Span -> Outcome<Event>)
    requires i < |rss|
    requires j < |OrEmpty(rss[i].scopeSpans)|
    requires k < |OrEmpty(OrEmpty(rss[i].scopeSpans)[j].spans)|
    requires var sss := OrEmpty(rss[i].scopeSpans); var spans := OrEmpty(sss[j].spans);
      MapAll(ResourceListSpans(rss[..i]) + ScopeListSpans(sss[..j]) + spans[..k + 1], f).Raised?
    ensures var sss := OrEmpty(rss[i].scopeSpans); var spans := OrEmpty(sss[j].spans);
      MapAll(ResourceListSpans(rss), f) == MapAll(ResourceListSpans(rss[..i]) + ScopeListSpans(sss[..j]) + spans[..k + 1], f)
  {
    var sss := OrEmpty(rss[i].scopeSpans);
    var spans := OrEmpty(sss[j].spans);
    PayloadCut(rss, i, j, k + 1);
    MapAllRaised(ResourceListSpans(rss[..i]) + ScopeListSpans(sss[..j]) + spans[..k + 1],
                 spans[k + 1..] + ScopeListSpans(sss[j + 1..]) + ResourceListSpans(rss[i + 1..]), f);
  }

  /** `extract_events_from_otlp(payload)` */
  method ExtractEventsFromOtlp(payload: Payload, lib: Stdlib) returns (r: Outcome<seq<Event>>)
    ensures r == Normalize(PayloadSpans(payload), lib)
  {
    r := ExtractWith(payload, SpanFn(lib));
  }

  /** The nested loops of `extract_events_from_otlp`, for any per-span
      conversion `f`. */
  method ExtractWith(payload: Payload, f: Span -> Outcome<Event>) returns (r: Outcome<seq<Event>>)
    ensures r == MapAll(PayloadSpans(payload), f)
  {
    var events: seq<Event> := [];
    var rss := OrEmpty(payload.resourceSpans);
    var i := 0;
    while i < |rss|
      invariant 0 <= i <= |rss|
      invariant MapAll(ResourceListSpans(rss[..i]), f) == Ok(events)
    {
      var sss := OrEmpty(rss[i].scopeSpans);
      ghost var before := ResourceListSpans(rss[..i]);
      var j := 0;
      assert before + ScopeListSpans(sss[..0]) == before by {
        assert sss[..0] == [];
      }
      while j < |sss|
        invariant 0 <= j <= |sss|
        invariant MapAll(before + ScopeListSpans(sss[..j]), f) == Ok(events)
      {
        var spans := OrEmpty(sss[j].spans);
        ghost var done := before + ScopeListSpans(sss[..j]);
        var k := 0;
        assert done + spans[..0] == done;
        while k < |spans|
          invariant 0 <= k <= |spans|
          invariant MapAll(done + spans[..k], f) == Ok(events)
        {
          var ev := f(spans[k]);
          SpanStep(done, spans, k, f, events);
          if ev.Raised? {
            SpanHalt(rss, i, j, k, f);
            return Raised(ev.error);
          }
          events := events + [ev.value];
          k := k + 1;
        }
        assert spans[..k] == spans;
        ScopeListSpansStep(sss, j);
        assert before + ScopeListSpans(sss[..j + 1]) == done + spans;
        j := j + 1;
      }
      assert sss[..j] == sss;
      ResourceListSpansStep(rss, i);
      i := i + 1;
    }
    assert rss[..i] == rss;
    return Ok(events);
  }

  // ---------------------------------------------------------------------
  // Grouping by trace
  // ---------------------------------------------------------------------

  /** `e.get("trace_id") or f"no-trace:{e.get('span_id')}"`: never the empty
      key, since an empty trace id falls through to the synthetic one. */
  function TraceKey(e: Event): (r: string)
    ensures r != ""
  {
    if e.traceId.Some? && e.traceId.value != "" then e.traceId.value
    else "no-trace:" + (match e.spanId case Some(s) => s case None => "None")
  }

  /** The events of `evs` whose key is `k`, in order. */
  function Select(evs: seq<Event>, k: string): (r: seq<Event>)
    ensures forall e :: e in r <==> e in evs && TraceKey(e) == k
    ensures |r| <= |evs|
  {
    if evs == [] then []
    else
      var init := Select(evs[..|evs| - 1], k);
      var e := evs[|evs| - 1];
      assert evs == evs[..|evs| - 1] + [e];
      if TraceKey(e) == k then init + [e] else init
  }

  /** `for e in evs: d.setdefault(key(e), []).append(e)` */
  function GroupInto(d: Dict<seq<Event>>, evs: seq<Event>): Dict<seq<Event>> {
    if evs == [] then d
    else
      var e := evs[|evs| - 1];
      Append(GroupInto(d, evs[..|evs| - 1]), TraceKey(e), e)
  }

  /** Grouping appends to each list exactly the events with its key, in order. */
  lemma {:induction false} GroupIntoGet(d: Dict<seq<Event>>, evs: seq<Event>, k: string)
    ensures GroupInto(d, evs).Get(k, []) == d.Get(k, []) + Select(evs, k)
  {
    if evs != [] {
      GroupIntoGet(d, evs[..|evs| - 1], k);
    }
  }

  /** The keys after grouping are the old keys and the keys of the new events. */
  lemma {:induction false} GroupIntoKeys(d: Dict<seq<Event>>, evs: seq<Event>, k: string)
    ensures k in GroupInto(d, evs).values <==> k in d.values || exists e :: e in evs && TraceKey(e) == k
  {
    if evs != [] {
      var init := evs[..|evs| - 1];
      var last := evs[|evs| - 1];
      GroupIntoKeys(d, init, k);
      assert evs == init + [last];
      assert k in GroupInto(d, evs).values <==> k in GroupInto(d, init).values || k == TraceKey(last);
      if exists e :: e in evs && TraceKey(e) == k {
        var e :| e in evs && TraceKey(e) == k;
        assert e in init || e == last;
      }
    }
  }

  /** Grouping keeps a dict well formed. */
  lemma {:induction false} GroupIntoValid(d: Dict<seq<Event>>, evs: seq<Event>)
    requires d.Valid()
    ensures GroupInto(d, evs).Valid()
  {
    if evs != [] {
      GroupIntoValid(d, evs[..|evs| - 1]);
    }
  }

  /** Grouping never leaves an empty list behind. */
  lemma {:induction false} GroupIntoNonEmpty(d: Dict<seq<Event>>, evs: seq<Event>)
    requires forall k :: k in d.values ==> d.values[k] != []
    ensures forall k :: k in GroupInto(d, evs).values ==> GroupInto(d, evs).values[k] != []
  {
    if evs != [] {
      GroupIntoNonEmpty(d, evs[..|evs| - 1]);
    }
  }

  /** Grouping adds exactly the new events to the total. */
  lemma {:induction false} GroupIntoTotal(d: Dict<seq<Event>>, evs: seq<Event>)
    requires d.Valid()
    ensures Total(GroupInto(d, evs)) == Total(d) + |evs|
  {
    if evs != [] {
      var init := evs[..|evs| - 1];
      GroupIntoTotal(d, init);
      GroupIntoValid(d, init);
      AppendTotal(GroupInto(d, init), TraceKey(evs[|evs| - 1]), evs[|evs| - 1]);
    }
  }

  /** Key `a` turns up in `evs` before key `b` does. */
  ghost predicate SeenBefore(evs: seq<Event>, a: string, b: string) {
    exists p :: 0 <= p < |evs| && TraceKey(evs[p]) == a && forall q :: 0 <= q <= p ==> TraceKey(evs[q]) != b
  }

  /** What was seen before in a prefix of the events stays seen before. */
  lemma SeenBeforeExtends(init: seq<Event>, e: Event, a: string, b: string)
    requires SeenBefore(init, a, b)
    ensures SeenBefore(init + [e], a, b)
  {
    var evs := init + [e];
    var p :| 0 <= p < |init| && TraceKey(init[p]) == a && forall q :: 0 <= q <= p ==> TraceKey(init[q]) != b;
    assert forall q :: 0 <= q <= p ==> evs[q] == init[q];
  }

  /** A key met for the first time at the last event comes after every key
      already present. */
  lemma {:induction false} SeenBeforeNewKey(init: seq<Event>, e: Event, a: string)
    requires a in GroupInto(Empty(), init).values && TraceKey(e) !in GroupInto(Empty(), init).values
    ensures SeenBefore(init + [e], a, TraceKey(e))
  {
    var evs := init + [e];
    GroupIntoKeys(Empty(), init, a);
    GroupIntoKeys(Empty(), init, TraceKey(e));
    var ev :| ev in init && TraceKey(ev) == a;
    var p :| 0 <= p < |init| && init[p] == ev;
    assert forall q :: 0 <= q <= p ==> evs[q] == init[q];
    assert TraceKey(evs[p]) == a;
  }

  /** The keys of the grouped dict come in the order in which each key is
      first seen among the events. */
  lemma {:induction false} GroupKeyOrder(evs: seq<Event>)
    ensures forall i, j :: 0 <= i < j < |GroupInto(Empty(), evs).keys| ==>
      SeenBefore(evs, GroupInto(Empty(), evs).keys[i], GroupInto(Empty(), evs).keys[j])
  {
    if evs != [] {
      var init := evs[..|evs| - 1];
      var e := evs[|evs| - 1];
      GroupKeyOrder(init);
      var d0 := GroupInto(Empty(), init);
      var ks0 := d0.keys;
      assert evs == init + [e];
      var ks := GroupInto(Empty(), evs).keys;
      GroupIntoValid(Empty(), init);
      forall i, j | 0 <= i < j < |ks0| ensures SeenBefore(evs, ks0[i], ks0[j]) {
        SeenBeforeExtends(init, e, ks0[i], ks0[j]);
      }
      if TraceKey(e) !in d0.values {
        assert ks == ks0 + [TraceKey(e)];
        forall i | 0 <= i < |ks0| ensures SeenBefore(evs, ks0[i], TraceKey(e)) {
          assert ks0[i] in ks0;
          SeenBeforeNewKey(init, e, ks0[i]);
        }
      } else {
        assert ks == ks0;
      }
    }
  }

  /** `group_by_trace(events)` */
  method GroupByTrace(events: seq<Event>) returns (d: Dict<seq<Event>>)
    ensures d == GroupInto(Empty(), events)
  {
    d := Empty();
    var i := 0;
    while i < |events|
      invariant 0 <= i <= |events|
      invariant d == GroupInto(Empty(), events[..i])
    {
      var e := events[i];
      assert events[..i + 1][..i] == events[..i];
      d := Append(d, TraceKey(e), e);
      i := i + 1;
    }
    assert events[..i] == events;
  }

  /** What `group_by_trace` promises: the list under each key holds exactly
      the events with that key, in input order; every event sits in one list;
      no list is empty. */
  lemma GroupByTraceSpec(events: seq<Event>)
    ensures var d := GroupInto(Empty(), events);
      && d.Valid()
      && Total(d) == |events|
      && (forall k :: k in d.values ==> d.values[k] == Select(events, k) && d.values[k] != [])
      && (forall e :: e in events ==> TraceKey(e) in d.values && e in d.values[TraceKey(e)])
  {
    var d := GroupInto(Empty(), events);
    GroupIntoValid(Empty(), events);
    GroupIntoNonEmpty(Empty(), events);
    GroupIntoTotal(Empty(), events);
    forall k | k in d.values ensures d.values[k] == Select(events, k) {
      GroupIntoGet(Empty(), events, k);
    }
    forall e | e in events ensures TraceKey(e) in d.values && e in d.values[TraceKey(e)] {
      GroupIntoKeys(Empty(), events, TraceKey(e));
      GroupIntoGet(Empty(), events, TraceKey(e));
    }
  }

  // ---------------------------------------------------------------------
  // Narrative text
  // ---------------------------------------------------------------------

  /** The line tags of `build_clean_text`. */
  datatype Kind = Dns | Net | ProcStart | ProcEnd | Other

  /** The tag chosen by the first `in` test that succeeds, in the source's
      order; `in` on `None`, a bool or an int raises `TypeError`. */
  function KindOf(ev: Value): (r: Outcome<Kind>)
    ensures r.Raised? <==> ev.VNone? || ev.VBool? || ev.VInt?
  {
    var dns := In("Dnsquery", ev);
    if dns.Raised? then Raised(dns.error)
    else if dns.value then Ok(Dns)
    else if In("Networkconnectiondetected", ev).value then Ok(Net)
    else if In("ProcessCreate", ev).value then Ok(ProcStart)
    else if In("Processterminated", ev).value || In("ProcessTerminate", ev).value then Ok(ProcEnd)
    else Ok(Other)
  }

  /** The rules as a table: substrings to look for, and the tag they select. */
  const Rules: seq<(seq<string>, Kind)> := [
    (["Dnsquery"], Dns),
    (["Networkconnectiondetected"], Net),
    (["ProcessCreate"], ProcStart),
    (["Processterminated", "ProcessTerminate"], ProcEnd)
  ]

  /** Some substring of `needles` occurs in `s`. */
  predicate AnyOccurs(s: string, needles: seq<string>) {
    needles != [] && (Occurs(s, needles[0]) || AnyOccurs(s, needles[1..]))
  }

  /** The tag of the first rule one of whose substrings occurs in `s`. */
  function FirstRule(s: string, rules: seq<(seq<string>, Kind)>): Kind {
    if rules == [] then Other
    else if AnyOccurs(s, rules[0].0) then rules[0].1
    else FirstRule(s, rules[1..])
  }

  /** For an event name that is a string, the tag is the one the rule table
      picks: the first rule, in priority order, with a matching substring. */
  lemma KindByTable(s: string)
    ensures KindOf(VStr(s)) == Ok(FirstRule(s, Rules))
  {
    var r := Rules;
    assert AnyOccurs(s, r[0].0) == Occurs(s, "Dnsquery");
    assert AnyOccurs(s, r[1].0) == Occurs(s, "Networkconnectiondetected");
    assert AnyOccurs(s, r[2].0) == Occurs(s, "ProcessCreate");
    assert r[3].0[1..] == ["ProcessTerminate"] && r[3].0[1..][1..] == [];
    assert !AnyOccurs(s, r[3].0[1..][1..]);
    assert AnyOccurs(s, r[3].0[1..]) == Occurs(s, "ProcessTerminate");
    assert AnyOccurs(s, r[3].0) == (Occurs(s, "Processterminated") || Occurs(s, "ProcessTerminate"));
    assert FirstRule(s, r) == if Occurs(s, "Dnsquery") then Dns else FirstRule(s, r[1..]);
    assert FirstRule(s, r[1..]) == if Occurs(s, "Networkconnectiondetected") then Net else FirstRule(s, r[2..]);
    assert FirstRule(s, r[2..]) == if Occurs(s, "ProcessCreate") then ProcStart else FirstRule(s, r[3..]);
    assert FirstRule(s, r[3..]) == if Occurs(s, "Processterminated") || Occurs(s, "ProcessTerminate") then ProcEnd else FirstRule(s, r[4..]);
    assert r[4..] == [];
  }

  /** The fields of an event that a narrative line can show. */
  datatype Field = EventName | ProcessName | ProcessId | QueryName | QueryResults
                 | SourceIp | SourcePort | DestinationIp | DestinationPort | CommandLine

  /** `e.get(...)` of a field, as the f-string sees it. */
  function FieldValue(e: Event, f: Field): Value {
    match f
    case EventName => e.eventName
    case ProcessName => e.processName
    case ProcessId => e.processId
    case QueryName => e.queryName
    case QueryResults => e.queryResults
    case SourceIp => TextOrNone(e.sourceIp)
    case SourcePort => IntOrNone(e.sourcePort)
    case DestinationIp => TextOrNone(e.destinationIp)
    case DestinationPort => IntOrNone(e.destinationPort)
    case CommandLine => e.commandLine
  }

  /** A piece of an f-string: literal text or a rendered field. */
  datatype Piece = Lit(text: string) | Slot(field: Field)

  /** The f-string of each tag, as a table. */
  function Template(k: Kind): seq<Piece> {
    match k
    case Dns => [Lit("[DNS] "), Slot(ProcessName), Lit(" -> "), Slot(QueryName), Lit(" / result="), Slot(QueryResults)]
    case Net => [Lit("[NET] "), Slot(ProcessName), Lit(" "), Slot(SourceIp), Lit(":"), Slot(SourcePort),
                 Lit(" -> "), Slot(DestinationIp), Lit(":"), Slot(DestinationPort), Lit(" tcp")]
    case ProcStart => [Lit("[PROC+] "), Slot(ProcessName), Lit(" pid="), Slot(ProcessId), Lit(" cmd="), Slot(CommandLine)]
    case ProcEnd => [Lit("[PROC-] "), Slot(ProcessName), Lit(" pid="), Slot(ProcessId)]
    case Other => [Lit("["), Slot(EventName), Lit("] "), Slot(ProcessName), Lit(" pid="), Slot(ProcessId)]
  }

  /** The text of one piece. */
  function PieceText(p: Piece, e: Event, lib: Stdlib): string {
    match p
    case Lit(t) => t
    case Slot(f) => Show(FieldValue(e, f), lib.repr)
  }

  /** An f-string filled in from an event. */
  function Render(pieces: seq<Piece>, e: Event, lib: Stdlib): string {
    if pieces == [] then ""
    else Render(pieces[..|pieces| - 1], e, lib) + PieceText(pieces[|pieces| - 1], e, lib)
  }

  lemma RenderPrefix(ps: seq<Piece>, i: nat, e: Event, lib: Stdlib)
    requires 0 < i <= |ps|
    ensures Render(ps[..i], e, lib) == Render(ps[..i - 1], e, lib) + PieceText(ps[i - 1], e, lib)
  {
    assert ps[..i][..i - 1] == ps[..i - 1];
  }

  /** One line of the narrative. */
  function LineFor(e: Event, lib: Stdlib): (r: Outcome<string>)
    ensures r.Raised? <==> KindOf(e.eventName).Raised?
    ensures r.Ok? ==> |r.value| > 0 && r.value[0] == '['
  {
    var pn := Show(e.processName, lib.repr);
    var pid := Show(e.processId, lib.repr);
    match KindOf(e.eventName)
    case Raised(err) => Raised(err)
    case Ok(Dns) =>
      Ok("[DNS] " + pn + " -> " + Show(e.queryName, lib.repr) + " / result=" + Show(e.queryResults, lib.repr))
    case Ok(Net) =>
      Ok("[NET] " + pn + " " + Show(TextOrNone(e.sourceIp), lib.repr) + ":" + Show(IntOrNone(e.sourcePort), lib.repr)
         + " -> " + Show(TextOrNone(e.destinationIp), lib.repr) + ":" + Show(IntOrNone(e.destinationPort), lib.repr) + " tcp")
    case Ok(ProcStart) =>
      Ok("[PROC+] " + pn + " pid=" + pid + " cmd=" + Show(e.commandLine, lib.repr))
    case Ok(ProcEnd) =>
      Ok("[PROC-] " + pn + " pid=" + pid)
    case Ok(Other) =>
      Ok("[" + Show(e.eventName, lib.repr) + "] " + pn + " pid=" + pid)
  }

  /** The first six pieces of a template, filled in one after the other. */
  lemma RenderTwo(ps: seq<Piece>, e: Event, lib: Stdlib)
    requires |ps| >= 2
    ensures Render(ps[..2], e, lib) == PieceText(ps[0], e, lib) + PieceText(ps[1], e, lib)
  {
    assert ps[..0] == [];
    RenderPrefix(ps, 1, e, lib);
    RenderPrefix(ps, 2, e, lib);
  }

  lemma RenderFour(ps: seq<Piece>, e: Event, lib: Stdlib)
    requires |ps| >= 4
    ensures Render(ps[..4], e, lib) == PieceText(ps[0], e, lib) + PieceText(ps[1], e, lib) + PieceText(ps[2], e, lib) + PieceText(ps[3], e, lib)
  {
    RenderTwo(ps, e, lib);
    RenderPrefix(ps, 3, e, lib);
    RenderPrefix(ps, 4, e, lib);
  }

  lemma RenderSix(ps: seq<Piece>, e: Event, lib: Stdlib)
    requires |ps| >= 6
    ensures Render(ps[..6], e, lib) == PieceText(ps[0], e, lib) + PieceText(ps[1], e, lib) + PieceText(ps[2], e, lib) + PieceText(ps[3], e, lib) + PieceText(ps[4], e, lib) + PieceText(ps[5], e, lib)
  {
    RenderFour(ps, e, lib);
    RenderPrefix(ps, 5, e, lib);
    RenderPrefix(ps, 6, e, lib);
  }

  lemma RenderEight(ps: seq<Piece>, e: Event, lib: Stdlib)
    requires |ps| >= 8
    ensures Render(ps[..8], e, lib) == PieceText(ps[0], e, lib) + PieceText(ps[1], e, lib) + PieceText(ps[2], e, lib) + PieceText(ps[3], e, lib) + PieceText(ps[4], e, lib) + PieceText(ps[5], e, lib) + PieceText(ps[6], e, lib) + PieceText(ps[7], e, lib)
  {
    RenderSix(ps, e, lib);
    RenderPrefix(ps, 7, e, lib);
    RenderPrefix(ps, 8, e, lib);
  }

  lemma RenderEleven(ps: seq<Piece>, e: Event, lib: Stdlib)
    requires |ps| >= 11
    ensures Render(ps[..11], e, lib) == PieceText(ps[0], e, lib) + PieceText(ps[1], e, lib) + PieceText(ps[2], e, lib) + PieceText(ps[3], e, lib) + PieceText(ps[4], e, lib) + PieceText(ps[5], e, lib) + PieceText(ps[6], e, lib) + PieceText(ps[7], e, lib) + PieceText(ps[8], e, lib) + PieceText(ps[9], e, lib) + PieceText(ps[10], e, lib)
  {
    RenderEight(ps, e, lib);
    RenderPrefix(ps, 9, e, lib);
    RenderPrefix(ps, 10, e, lib);
    RenderPrefix(ps, 11, e, lib);
  }

  /** Each line is its tag's template filled in from the event: the tag,
      the fields it shows and the text between them, in the f-string's order. */
  lemma LineTemplate(e: Event, lib: Stdlib)
    requires LineFor(e, lib).Ok?
    ensures LineFor(e, lib).value == Render(Template(KindOf(e.eventName).value), e, lib)
  {
    match KindOf(e.eventName).value
    case Dns => LineOfDns(e, lib);
    case Net => LineOfNet(e, lib);
    case ProcStart => LineOfProcStart(e, lib);
    case ProcEnd => LineOfProcEnd(e, lib);
    case Other => LineOfOther(e, lib);
  }

  lemma LineOfDns(e: Event, lib: Stdlib)
    requires KindOf(e.eventName) == Ok(Dns)
    ensures LineFor(e, lib) == Ok(Render(Template(Dns), e, lib))
  {
    TemplateOfDns(e, lib);
  }

  lemma LineOfNet(e: Event, lib: Stdlib)
    requires KindOf(e.eventName) == Ok(Net)
    ensures LineFor(e, lib) == Ok(Render(Template(Net), e, lib))
  {
    var t := Template(Net);
    assert t[3] == Slot(SourceIp) && t[5] == Slot(SourcePort);
    assert t[7] == Slot(DestinationIp) && t[9] == Slot(DestinationPort);
    assert FieldValue(e, SourceIp) == TextOrNone(e.sourceIp);
    assert FieldValue(e, SourcePort) == IntOrNone(e.sourcePort);
    assert FieldValue(e, DestinationIp) == TextOrNone(e.destinationIp);
    assert FieldValue(e, DestinationPort) == IntOrNone(e.destinationPort);
    TemplateOfNet(e, lib);
  }

  lemma LineOfProcStart(e: Event, lib: Stdlib)
    requires KindOf(e.eventName) == Ok(ProcStart)
    ensures LineFor(e, lib) == Ok(Render(Template(ProcStart), e, lib))
  {
    TemplateOfProcStart(e, lib);
  }

  lemma LineOfProcEnd(e: Event, lib: Stdlib)
    requires KindOf(e.eventName) == Ok(ProcEnd)
    ensures LineFor(e, lib) == Ok(Render(Template(ProcEnd), e, lib))
  {
    TemplateOfProcEnd(e, lib);
  }

  lemma LineOfOther(e: Event, lib: Stdlib)
    requires KindOf(e.eventName) == Ok(Other)
    ensures LineFor(e, lib) == Ok(Render(Template(Other), e, lib))
  {
    TemplateOfOther(e, lib);
  }

  lemma TemplateOfDns(e: Event, lib: Stdlib)
    ensures var t := Template(Dns);
      Render(t, e, lib) == PieceText(t[0], e, lib) + PieceText(t[1], e, lib) + PieceText(t[2], e, lib) + PieceText(t[3], e, lib) + PieceText(t[4], e, lib) + PieceText(t[5], e, lib)
  {
    var t := Template(Dns);
    RenderSix(t, e, lib);
    assert t[..6] == t;
  }

  lemma TemplateOfNet(e: Event, lib: Stdlib)
    ensures var t := Template(Net);
      Render(t, e, lib) == PieceText(t[0], e, lib) + PieceText(t[1], e, lib) + PieceText(t[2], e, lib) + PieceText(t[3], e, lib) + PieceText(t[4], e, lib) + PieceText(t[5], e, lib) + PieceText(t[6], e, lib) + PieceText(t[7], e, lib) + PieceText(t[8], e, lib) + PieceText(t[9], e, lib) + PieceText(t[10], e, lib)
  {
    var t := Template(Net);
    RenderEleven(t, e, lib);
    assert t[..11] == t;
  }

  lemma TemplateOfProcStart(e: Event, lib: Stdlib)
    ensures var t := Template(ProcStart);
      Render(t, e, lib) == PieceText(t[0], e, lib) + PieceText(t[1], e, lib) + PieceText(t[2], e, lib) + PieceText(t[3], e, lib) + PieceText(t[4], e, lib) + PieceText(t[5], e, lib)
  {
    var t := Template(ProcStart);
    RenderSix(t, e, lib);
    assert t[..6] == t;
  }

  lemma TemplateOfProcEnd(e: Event, lib: Stdlib)
    ensures var t := Template(ProcEnd);
      Render(t, e, lib) == PieceText(t[0], e, lib) + PieceText(t[1], e, lib) + PieceText(t[2], e, lib) + PieceText(t[3], e, lib)
  {
    var t := Template(ProcEnd);
    RenderFour(t, e, lib);
    assert t[..4] == t;
  }

  lemma TemplateOfOther(e: Event, lib: Stdlib)
    ensures var t := Template(Other);
      Render(t, e, lib) == PieceText(t[0], e, lib) + PieceText(t[1], e, lib) + PieceText(t[2], e, lib) + PieceText(t[3], e, lib) + PieceText(t[4], e, lib) + PieceText(t[5], e, lib)
  {
    var t := Template(Other);
    RenderSix(t, e, lib);
    assert t[..6] == t;
  }

  /** The line of a DNS query by `svc.exe` for `evil.test`. */
  lemma DnsLineExample(lib: Stdlib)
    ensures var e := Event(None, None, VStr("Dnsquery"), VNone, VNone, VStr("svc.exe"), VNone, VNone, VNone,
                           None, None, None, None, VStr("evil.test"), VStr("1.2.3.4"), VNone, VNone, VNone);
      LineFor(e, lib) == Ok("[DNS] svc.exe -> evil.test / result=1.2.3.4")
  {
    var e := Event(None, None, VStr("Dnsquery"), VNone, VNone, VStr("svc.exe"), VNone, VNone, VNone,
                   None, None, None, None, VStr("evil.test"), VStr("1.2.3.4"), VNone, VNone, VNone);
    assert StartsWith("Dnsquery"[0..], "Dnsquery");
    assert KindOf(e.eventName) == Ok(Dns);
    assert LineFor(e, lib) == Ok("[DNS] " + "svc.exe" + " -> " + "evil.test" + " / result=" + "1.2.3.4");
    DnsLineText();
  }

  lemma DnsLineText()
    ensures "[DNS] " + "svc.exe" + " -> " + "evil.test" + " / result=" + "1.2.3.4"
         == "[DNS] svc.exe -> evil.test / result=1.2.3.4"
  {
    assert "[DNS] " + "svc.exe" == "[DNS] svc.exe";
    assert "[DNS] svc.exe" + " -> " == "[DNS] svc.exe -> ";
    assert "[DNS] svc.exe -> " + "evil.test" == "[DNS] svc.exe -> evil.test";
    assert "[DNS] svc.exe -> evil.test" + " / result=" == "[DNS] svc.exe -> evil.test / result=";
  }

  /** `[ln for ln in lines if ln]` */
  function NonEmpty(lines: seq<string>): (r: seq<string>)
    ensures forall l :: l in r <==> l in lines && l != ""
  {
    if lines == [] then []
    else
      var init := NonEmpty(lines[..|lines| - 1]);
      var l := lines[|lines| - 1];
      assert lines == lines[..|lines| - 1] + [l];
      if l != "" then init + [l] else init
  }

  /** Where no line is empty the filter keeps every line. */
  lemma {:induction false} NonEmptyKeepsAll(lines: seq<string>)
    requires forall i :: 0 <= i < |lines| ==> lines[i] != ""
    ensures NonEmpty(lines) == lines
  {
    if lines != [] {
      NonEmptyKeepsAll(lines[..|lines| - 1]);
    }
  }

  /** The lines of a list of events, or the first exception. */
  function Lines(events: seq<Event>, lib: Stdlib): Outcome<seq<string>> {
    MapAll(events, e => LineFor(e, lib))
  }

  /** `build_clean_text(events)` as a value. */
  function CleanText(events: seq<Event>, lib: Stdlib): Outcome<string> {
    match Lines(events, lib)
    case Raised(e) => Raised(e)
    case Ok(lines) => Ok(Join(NonEmpty(lines), "\n"))
  }

  /** `build_clean_text(events)` */
  method BuildCleanText(events: seq<Event>, lib: Stdlib) returns (r: Outcome<string>)
    ensures r == CleanText(events, lib)
  {
    var f := (e: Event) => LineFor(e, lib);
    var lines: seq<string> := [];
    var i := 0;
    while i < |events|
      invariant 0 <= i <= |events|
      invariant MapAll(events[..i], f) == Ok(lines)
    {
      var line := LineFor(events[i], lib);
      MapAllSnoc(events[..i], events[i], f);
      assert events[..i] + [events[i]] == events[..i + 1];
      if line.Raised? {
        assert events == events[..i + 1] + events[i + 1..];
        MapAllRaised(events[..i + 1], events[i + 1..], f);
        return Raised(line.error);
      }
      lines := lines + [line.value];
      i := i + 1;
    }
    assert events[..i] == events;
    return Ok(Join(NonEmpty(lines), "\n"));
  }

  /** The narrative is the events' lines, one per event, in input order,
      joined by newlines: the filter of empty lines drops nothing, and no
      events give the empty text. */
  lemma CleanTextLines(events: seq<Event>, lib: Stdlib)
    ensures events == [] ==> CleanText(events, lib) == Ok("")
    ensures CleanText(events, lib).Ok? <==> forall i :: 0 <= i < |events| ==> LineFor(events[i], lib).Ok?
    ensures CleanText(events, lib).Ok? ==>
      exists lines: seq<string> ::
        && |lines| == |events|
        && (forall i :: 0 <= i < |events| ==> LineFor(events[i], lib) == Ok(lines[i]))
        && CleanText(events, lib) == Ok(Join(lines, "\n"))
  {
    var f := (e: Event) => LineFor(e, lib);
    MapAllSpec(events, f);
    assert forall i :: 0 <= i < |events| ==> f(events[i]) == LineFor(events[i], lib);
    var r := MapAll(events, f);
    if r.Ok? {
      NonEmptyKeepsAll(r.value);
    }
  }

  // ---------------------------------------------------------------------
  // Summary metadata
  // ---------------------------------------------------------------------

  /** The five sets and the flag `build_summary_meta` accumulates. */
  datatype Sets = Sets(
    eventTypes: set<string>,
    processNames: set<string>,
    domains: set<string>,
    dstIps: set<string>,
    dstPorts: set<string>,
    sigmaHit: bool)

  /** The dict `build_summary_meta` returns. */
  datatype SummaryMeta = SummaryMeta(
    eventTypes: seq<string>,
    processNames: seq<string>,
    domains: seq<string>,
    dstIps: seq<string>,
    dstPorts: seq<string>,
    sigmaHit: bool,
    eventCount: nat)

  /** What `if v: s.add(v)` adds to a set of strings. A list or dict is
      unhashable (`TypeError`); a truthy int or bool would make the set, and
      then `sorted`, mix types, which the model declines (`Unsupported`). */
  function Member(v: Value): (r: Outcome<set<string>>)
    ensures r.Ok? ==> forall x :: x in r.value <==> v == VStr(x) && x != ""
  {
    if !Truthy(v) then Ok({})
    else
      match v
      case VStr(s) => Ok({s})
      case VList(_) => Raised(TypeError)
      case VDict(_) => Raised(TypeError)
      case _ => Raised(Unsupported)
  }

  /** The first of the three value-typed fields that cannot be added. */
  function Check(e: Event): Option<Error> {
    if Member(e.eventName).Raised? then Some(Member(e.eventName).error)
    else if Member(e.processName).Raised? then Some(Member(e.processName).error)
    else if Member(e.queryName).Raised? then Some(Member(e.queryName).error)
    else None
  }

  /** What a value-typed field adds where it does not raise. */
  function MemberOr(v: Value): (r: set<string>)
    ensures forall x :: x in r <==> v == VStr(x) && x != ""
  {
    if Member(v).Ok? then Member(v).value else {}
  }

  /** What `destination_ip` adds. */
  function IpMember(o: Option<string>): (r: set<string>)
    ensures forall x :: x in r <==> o == Some(x) && x != ""
  {
    if o.Some? && o.value != "" then {o.value} else {}
  }

  /** What `destination_port` adds: its decimal text when it is truthy. */
  function PortMember(o: Option<int>): (r: set<string>)
    ensures forall x :: x in r <==> o.Some? && o.value != 0 && x == IntToString(o.value)
  {
    if o.Some? && o.value != 0 then {IntToString(o.value)} else {}
  }

  function TypesOf(): Event -> set<string> {
    (e: Event) => MemberOr(e.eventName)
  }

  function NamesOf(): Event -> set<string> {
    (e: Event) => MemberOr(e.processName)
  }

  function DomainsOf(): Event -> set<string> {
    (e: Event) => MemberOr(e.queryName)
  }

  function IpsOf(): Event -> set<string> {
    (e: Event) => IpMember(e.destinationIp)
  }

  function PortsOf(): Event -> set<string> {
    (e: Event) => PortMember(e.destinationPort)
  }

  /** The event sets `sigma_hit`. */
  predicate Flags(e: Event) {
    Truthy(e.sigmaAlert) || Truthy(e.sigmaRuleTitle)
  }

  /** The union of `f(e)` over the events. */
  function Gather(events: seq<Event>, f: Event -> set<string>): (r: set<string>)
    ensures forall x :: x in r <==> exists e :: e in events && x in f(e)
  {
    if events == [] then {}
    else
      var init := events[..|events| - 1];
      var e := events[|events| - 1];
      assert events == init + [e];
      Gather(init, f) + f(e)
  }

  /** Some event sets the flag. */
  function AnyFlag(events: seq<Event>): (r: bool)
    ensures r <==> exists e :: e in events && Flags(e)
  {
    if events == [] then false
    else
      var init := events[..|events| - 1];
      var e := events[|events| - 1];
      assert events == init + [e];
      AnyFlag(init) || Flags(e)
  }

  /** The five sets and the flag, field by field. */
  function Gathered(events: seq<Event>): Sets {
    Sets(Gather(events, TypesOf()), Gather(events, NamesOf()), Gather(events, DomainsOf()),
         Gather(events, IpsOf()), Gather(events, PortsOf()), AnyFlag(events))
  }

  /** The sets after one more pass of the loop body over `e`. */
  function Add(s: Sets, e: Event): Sets
    requires Check(e).None?
  {
    Sets(
      s.eventTypes + Member(e.eventName).value,
      s.processNames + Member(e.processName).value,
      s.domains + Member(e.queryName).value,
      s.dstIps + IpMember(e.destinationIp),
      s.dstPorts + PortMember(e.destinationPort),
      s.sigmaHit || Truthy(e.sigmaAlert) || Truthy(e.sigmaRuleTitle))
  }

  function NoSets(): Sets {
    Sets({}, {}, {}, {}, {}, false)
  }

  /** The sets the loop of `build_summary_meta` accumulates over `events`, or
      the first exception: the fold raises exactly when some event has a field
      that cannot be added, and otherwise gathers each field independently. */
  function Collect(events: seq<Event>): (r: Outcome<Sets>)
    ensures r.Raised? <==> exists e :: e in events && Check(e).Some?
    ensures r.Ok? ==> r.value == Gathered(events)
  {
    if events == [] then Ok(NoSets())
    else
      var init := events[..|events| - 1];
      var e := events[|events| - 1];
      assert events == init + [e];
      match Collect(init)
      case Raised(err) => Raised(err)
      case Ok(s) =>
        match Check(e)
        case Some(err) => Raised(err)
        case None => Ok(Add(s, e))
  }

  /** Each set holds exactly the truthy values of its field (ports rendered
      with `str`, so 0 is never listed), and the flag says whether some event
      has a truthy `sigma_alert` or `sigma_rule_title`. */
  lemma CollectSpec(events: seq<Event>)
    requires Collect(events).Ok?
    ensures var s := Collect(events).value;
      && (forall x :: x in s.eventTypes <==> exists e :: e in events && e.eventName == VStr(x) && x != "")
      && (forall x :: x in s.processNames <==> exists e :: e in events && e.processName == VStr(x) && x != "")
      && (forall x :: x in s.domains <==> exists e :: e in events && e.queryName == VStr(x) && x != "")
      && (forall x :: x in s.dstIps <==> exists e :: e in events && e.destinationIp == Some(x) && x != "")
      && (forall x :: x in s.dstPorts <==>
            exists e :: e in events && e.destinationPort.Some? && e.destinationPort.value != 0 && x == IntToString(e.destinationPort.value))
      && (s.sigmaHit <==> exists e :: e in events && (Truthy(e.sigmaAlert) || Truthy(e.sigmaRuleTitle)))
  {
    GatherField(events, TypesOf(), (e: Event) => e.eventName);
    GatherField(events, NamesOf(), (e: Event) => e.processName);
    GatherField(events, DomainsOf(), (e: Event) => e.queryName);
  }

  lemma GatherField(events: seq<Event>, f: Event -> set<string>, field: Event -> Value)
    requires forall e :: f(e) == MemberOr(field(e))
    ensures forall x :: x in Gather(events, f) <==> exists e :: e in events && field(e) == VStr(x) && x != ""
  {
    forall x ensures x in Gather(events, f) <==> exists e :: e in events && field(e) == VStr(x) && x != "" {
      if x in Gather(events, f) {
        var e :| e in events && x in f(e);
        assert field(e) == VStr(x) && x != "";
      }
      if exists e :: e in events && field(e) == VStr(x) && x != "" {
        var e :| e in events && field(e) == VStr(x) && x != "";
        assert x in f(e);
      }
    }
  }

  lemma {:induction false} CollectRaised(a: seq<Event>, b: seq<Event>)
    requires Collect(a).Raised?
    ensures Collect(a + b) == Collect(a)
  {
    if b == [] {
      assert a + b == a;
    } else {
      var init := b[..|b| - 1];
      CollectRaised(a, init);
      assert (a + b)[..|a + b| - 1] == a + init;
    }
  }

  /** A sorted list of the elements of a set, without repeats. */
  ghost predicate Lists(l: seq<string>, s: set<string>) {
    StrictlyIncreasing(l) && forall x :: x in l <==> x in s
  }

  /** `m` is the dict returned for the sets `s` gathered from `n` events. */
  ghost predicate Presents(m: SummaryMeta, s: Sets, n: nat) {
    && Lists(m.eventTypes, s.eventTypes)
    && Lists(m.processNames, s.processNames)
    && Lists(m.domains, s.domains)
    && Lists(m.dstIps, s.dstIps)
    && Lists(m.dstPorts, s.dstPorts)
    && m.sigmaHit == s.sigmaHit
    && m.eventCount == n
  }

  /** The loop of `build_summary_meta`: the five sets and the flag built up
      event by event, or the exception of the first event that raises. */
  method GatherSets(events: seq<Event>) returns (r: Outcome<Sets>)
    ensures r == Collect(events)
  {
    var eventTypes, procNames, domains, dstIps, dstPorts := {}, {}, {}, {}, {};
    var sigmaHit := false;
    var i := 0;
    assert events[..0] == [];
    while i < |events|
      invariant 0 <= i <= |events|
      invariant Collect(events[..i]) == Ok(Sets(eventTypes, procNames, domains, dstIps, dstPorts, sigmaHit))
    {
      var e := events[i];
      ghost var before := Sets(eventTypes, procNames, domains, dstIps, dstPorts, sigmaHit);
      var check := Check(e);
      if check.Some? {
        CollectHalt(events, i, before);
        return Raised(check.value);
      }
      CollectNext(events, i, before);
      eventTypes := eventTypes + Member(e.eventName).value;
      procNames := procNames + Member(e.processName).value;
      domains := domains + Member(e.queryName).value;
      dstIps := dstIps + IpMember(e.destinationIp);
      dstPorts := dstPorts + PortMember(e.destinationPort);
      if Truthy(e.sigmaAlert) || Truthy(e.sigmaRuleTitle) {
        sigmaHit := true;
      }
      ghost var after := Sets(eventTypes, procNames, domains, dstIps, dstPorts, sigmaHit);
      assert after == Add(before, e);
      assert Collect(events[..i + 1]) == Ok(after);
      i := i + 1;
    }
    assert events[..i] == events;
    return Ok(Sets(eventTypes, procNames, domains, dstIps, dstPorts, sigmaHit));
  }

  /** `build_summary_meta(events)` */
  method BuildSummaryMeta(events: seq<Event>) returns (r: Outcome<SummaryMeta>)
    ensures r.Raised? ==> Collect(events).Raised? && r.error == Collect(events).error
    ensures r.Ok? ==> Collect(events).Ok? && Presents(r.value, Collect(events).value, |events|)
    ensures Collect(events).Raised? ==> r.Raised?
  {
    var gathered := GatherSets(events);
    if gathered.Raised? {
      return Raised(gathered.error);
    }
    var sets := gathered.value;
    var a := Sorted(sets.eventTypes);
    var b := Sorted(sets.processNames);
    var c := Sorted(sets.domains);
    var d := Sorted(sets.dstIps);
    var p := Sorted(sets.dstPorts);
    return Ok(SummaryMeta(a, b, c, d, p, sets.sigmaHit, |events|));
  }

  lemma CollectStep(events: seq<Event>, i: nat)
    requires i < |events|
    ensures Collect(events[..i + 1]) == match Collect(events[..i])
      case Raised(err) => Raised(err)
      case Ok(s) => (match Check(events[i]) case Some(err) => Raised(err) case None => Ok(Add(s, events[i])))
  {
    assert events[..i + 1][..i] == events[..i];
  }

  /** The invariant of `BuildSummaryMeta`'s loop, carried over one event. */
  lemma CollectNext(events: seq<Event>, i: nat, s: Sets)
    requires i < |events| && Collect(events[..i]) == Ok(s) && Check(events[i]).None?
    ensures Collect(events[..i + 1]) == Ok(Add(s, events[i]))
  {
    CollectStep(events, i);
  }

  /** The loop of `BuildSummaryMeta` stops at the first event that raises. */
  lemma CollectHalt(events: seq<Event>, i: nat, s: Sets)
    requires i < |events| && Collect(events[..i]) == Ok(s) && Check(events[i]).Some?
    ensures Collect(events) == Raised(Check(events[i]).value)
  {
    CollectStep(events, i);
    CollectStop(events, i);
  }

  lemma CollectStop(events: seq<Event>, i: nat)
    requires i < |events| && Collect(events[..i + 1]).Raised?
    ensures Collect(events) == Collect(events[..i + 1])
  {
    SplitAt(events, i + 1);
    CollectRaised(events[..i + 1], events[i + 1..]);
  }

  /** The sets do not depend on the order of the events. */
  lemma CollectOrderFree(e1: seq<Event>, e2: seq<Event>)
    requires multiset(e1) == multiset(e2)
    ensures Collect(e1).Raised? <==> Collect(e2).Raised?
    ensures Collect(e1).Ok? ==> Collect(e1) == Collect(e2)
  {
    forall e ensures e in e1 <==> e in e2 {
      assert e in e1 <==> e in multiset(e1);
      assert e in e2 <==> e in multiset(e2);
    }
    CollectSameElements(e1, e2);
  }

  lemma CollectSameElements(e1: seq<Event>, e2: seq<Event>)
    requires forall e :: e in e1 <==> e in e2
    ensures Collect(e1).Raised? <==> Collect(e2).Raised?
    ensures Collect(e1).Ok? ==> Collect(e1) == Collect(e2)
  {
    if Collect(e1).Raised? {
      var e :| e in e1 && Check(e).Some?;
      assert e in e2;
    } else if Collect(e2).Ok? {
      GatherSame(e1, e2, TypesOf());
      GatherSame(e1, e2, NamesOf());
      GatherSame(e1, e2, DomainsOf());
      GatherSame(e1, e2, IpsOf());
      GatherSame(e1, e2, PortsOf());
      assert AnyFlag(e1) == AnyFlag(e2);
    }
  }

  lemma GatherSame(e1: seq<Event>, e2: seq<Event>, f: Event -> set<string>)
    requires forall e :: e in e1 <==> e in e2
    ensures Gather(e1, f) == Gather(e2, f)
  {
  }

  /** The metadata does not depend on the order of the events. */
  lemma SummaryMetaOrderFree(e1: seq<Event>, e2: seq<Event>, m1: SummaryMeta, m2: SummaryMeta)
    requires multiset(e1) == multiset(e2)
    requires Collect(e1).Ok? && Presents(m1, Collect(e1).value, |e1|)
    requires Collect(e2).Ok? && Presents(m2, Collect(e2).value, |e2|)
    ensures m1 == m2
  {
    CollectOrderFree(e1, e2);
    assert |e1| == |multiset(e1)| == |multiset(e2)| == |e2|;
    IncreasingUnique(m1.eventTypes, m2.eventTypes);
    IncreasingUnique(m1.processNames, m2.processNames);
    IncreasingUnique(m1.domains, m2.domains);
    IncreasingUnique(m1.dstIps, m2.dstIps);
    IncreasingUnique(m1.dstPorts, m2.dstPorts);
  }
}
