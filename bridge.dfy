/**
  The MQTT-to-WebSocket bridge (bridge/server.js): the topic list read from
  MQTT_TOPICS, `classify`, `safeJsonParse`, and the record and log line built
  for each incoming MQTT message. Strings are JavaScript strings taken as
  sequences of characters.
*/
module Bridge {
  import opened Wrappers

  // ---------------------------------------------------------------------
  // String.prototype.split with a one-character separator

  /** `s.split(sep)`: always at least one piece, none containing `sep`. */
  function Split(s: string, sep: char): (parts: seq<string>)
    ensures |parts| >= 1
    ensures forall i :: 0 <= i < |parts| ==> sep !in parts[i]
    decreases |s|
  {
    if s == [] then [""]
    else
      var rest := Split(s[1..], sep);
      if s[0] == sep then [""] + rest
      else [[s[0]] + rest[0]] + rest[1..]
  }

  /** `parts.join(sep)`, the inverse of Split. */
  function Join(parts: seq<string>, sep: char): string
    requires |parts| >= 1
    decreases |parts|
  {
    if |parts| == 1 then parts[0] else parts[0] + [sep] + Join(parts[1..], sep)
  }

  /** Splitting loses nothing: joining the pieces gives the string back. */
  lemma {:induction false} JoinSplit(s: string, sep: char)
    ensures Join(Split(s, sep), sep) == s
    decreases |s|
  {
    if s != [] {
      var rest := Split(s[1..], sep);
      JoinSplit(s[1..], sep);
      if s[0] == sep {
        assert Split(s, sep)[1..] == rest;
        assert s == [s[0]] + s[1..];
      } else {
        var parts := Split(s, sep);
        assert parts[1..] == rest[1..];
        if |rest| == 1 {
          assert s == [s[0]] + rest[0];
        } else {
          assert Join(rest, sep) == rest[0] + [sep] + Join(rest[1..], sep);
          assert s == [s[0]] + s[1..];
        }
      }
    }
  }

  /** Splitting a string with no separator gives that string alone. */
  lemma {:induction false} SplitNoSeparator(s: string, sep: char)
    requires sep !in s
    ensures Split(s, sep) == [s]
    decreases |s|
  {
    if s != [] {
      SplitNoSeparator(s[1..], sep);
      assert s == [s[0]] + s[1..];
    }
  }

  /** A separator-free head becomes the first piece. */
  lemma {:induction false} SplitAfterSeparator(a: string, sep: char, t: string)
    requires sep !in a
    ensures Split(a + [sep] + t, sep) == [a] + Split(t, sep)
    decreases |a|
  {
    if a == [] {
      assert a + [sep] + t == [sep] + t;
      assert ([sep] + t)[1..] == t;
    } else {
      assert (a + [sep] + t)[1..] == a[1..] + [sep] + t;
      SplitAfterSeparator(a[1..], sep, t);
      assert [a[0]] + a[1..] == a;
    }
  }

  /** The pieces of a joined list are the list, when no piece holds the separator. */
  lemma {:induction false} SplitJoin(parts: seq<string>, sep: char)
    requires |parts| >= 1
    requires forall i :: 0 <= i < |parts| ==> sep !in parts[i]
    ensures Split(Join(parts, sep), sep) == parts
    decreases |parts|
  {
    if |parts| == 1 {
      SplitNoSeparator(parts[0], sep);
    } else {
      SplitJoin(parts[1..], sep);
      SplitAfterSeparator(parts[0], sep, Join(parts[1..], sep));
      assert parts == [parts[0]] + parts[1..];
    }
  }

  // ---------------------------------------------------------------------
  // String.prototype.trim

  /** ECMAScript WhiteSpace and LineTerminator code points, which `trim` removes. */
  predicate IsJsSpace(c: char)
  {
    c == '\t' || c == '\n' || c == '\U{000B}' || c == '\U{000C}' || c == '\r' || c == ' '
    || c == '\U{00A0}' || c == '\U{1680}' || ('\U{2000}' <= c <= '\U{200A}')
    || c == '\U{2028}' || c == '\U{2029}' || c == '\U{202F}' || c == '\U{205F}'
    || c == '\U{3000}' || c == '\U{FEFF}'
  }

  /** Neither end of `s` is white space. */
  predicate Trimmed(s: string)
  {
    s == [] || (!IsJsSpace(s[0]) && !IsJsSpace(s[|s| - 1]))
  }

  /** Drops leading white space: the result is a suffix, and all that was cut is space. */
  function TrimStart(s: string): (r: string)
    ensures |r| <= |s| && r == s[|s| - |r|..]
    ensures forall i :: 0 <= i < |s| - |r| ==> IsJsSpace(s[i])
    ensures r == [] || !IsJsSpace(r[0])
    decreases |s|
  {
    if s != [] && IsJsSpace(s[0]) then TrimStart(s[1..]) else s
  }

  /** Drops trailing white space: the result is a prefix, and all that was cut is space. */
  function TrimEnd(s: string): (r: string)
    ensures |r| <= |s| && r == s[..|r|]
    ensures forall i :: |r| <= i < |s| ==> IsJsSpace(s[i])
    ensures r == [] || !IsJsSpace(r[|r| - 1])
    decreases |s|
  {
    if s != [] && IsJsSpace(s[|s| - 1]) then TrimEnd(s[..|s| - 1]) else s
  }

  /** `s.trim()`: no white space is left at either end. */
  function Trim(s: string): (r: string)
    ensures Trimmed(r)
  {
    var t := TrimStart(s);
    var r := TrimEnd(t);
    assert r != [] ==> r[0] == t[0];
    r
  }

  /**
    What `trim` keeps is one slice of the input, and everything it cuts off
    on either side is white space.
  */
  lemma TrimSlice(s: string)
    ensures var lead := |s| - |TrimStart(s)|;
      var r := Trim(s);
      lead + |r| <= |s| && r == s[lead..lead + |r|] &&
      (forall i :: 0 <= i < lead ==> IsJsSpace(s[i])) &&
      (forall i :: lead + |r| <= i < |s| ==> IsJsSpace(s[i]))
  {
    var t := TrimStart(s);
    var r := TrimEnd(t);
    var lead := |s| - |t|;
    assert t == s[lead..];
    assert r == t[..|r|];
    forall i | lead + |r| <= i < |s|
      ensures IsJsSpace(s[i])
    {
      assert s[i] == t[i - lead];
    }
  }

  /** Trimming leaves an already trimmed string alone, so it is idempotent. */
  lemma TrimTrimmed(s: string)
    requires Trimmed(s)
    ensures Trim(s) == s
  {
  }

  lemma TrimIdempotent(s: string)
    ensures Trim(Trim(s)) == Trim(s)
  {
  }

  /** Trimming gives the empty string exactly when the string is all white space. */
  lemma TrimEmpty(s: string)
    ensures Trim(s) == [] <==> forall i :: 0 <= i < |s| ==> IsJsSpace(s[i])
  {
  }

  /** Trimming never introduces a character. */
  lemma TrimKeepsAbsent(s: string, c: char)
    requires c !in s
    ensures c !in Trim(s)
  {
  }

  // ---------------------------------------------------------------------
  // MQTT_TOPICS: split(",").map(trim).filter(Boolean)

  /** `.map((s) => s.trim())` */
  function TrimAll(parts: seq<string>): (r: seq<string>)
    ensures |r| == |parts|
    ensures forall i :: 0 <= i < |r| ==> r[i] == Trim(parts[i])
  {
    seq(|parts|, i requires 0 <= i < |parts| => Trim(parts[i]))
  }

  /** `.filter(Boolean)` on strings: keeps the non-empty ones, in order. */
  function DropEmpty(xs: seq<string>): (r: seq<string>)
    ensures |r| <= |xs|
    ensures forall i :: 0 <= i < |r| ==> r[i] != [] && r[i] in xs
    ensures forall i :: 0 <= i < |xs| && xs[i] != [] ==> xs[i] in r
    decreases |xs|
  {
    if xs == [] then []
    else if xs[0] == [] then DropEmpty(xs[1..])
    else [xs[0]] + DropEmpty(xs[1..])
  }

  /** A list without empty strings passes the filter unchanged. */
  lemma {:induction false} DropEmptyKeeps(xs: seq<string>)
    requires forall i :: 0 <= i < |xs| ==> xs[i] != []
    ensures DropEmpty(xs) == xs
    decreases |xs|
  {
    if xs != [] {
      DropEmptyKeeps(xs[1..]);
    }
  }

  /** The filter works item by item: it keeps order and multiplicity. */
  lemma {:induction false} DropEmptyAppend(a: seq<string>, b: seq<string>)
    ensures DropEmpty(a + b) == DropEmpty(a) + DropEmpty(b)
    decreases |a|
  {
    if a == [] {
      assert a + b == b;
    } else {
      assert (a + b)[1..] == a[1..] + b;
      DropEmptyAppend(a[1..], b);
    }
  }

  /** One item is kept exactly when it is non-empty. */
  lemma DropEmptySingle(x: string)
    ensures DropEmpty([x]) == if x == [] then [] else [x]
  {
  }

  /** Filtering keeps items that are trimmed and comma-free. */
  lemma {:induction false} DropEmptyClean(xs: seq<string>)
    requires forall i :: 0 <= i < |xs| ==> Trimmed(xs[i]) && ',' !in xs[i]
    ensures forall i :: 0 <= i < |DropEmpty(xs)| ==> Trimmed(DropEmpty(xs)[i]) && ',' !in DropEmpty(xs)[i]
    decreases |xs|
  {
    if xs != [] {
      DropEmptyClean(xs[1..]);
    }
  }

  /** Trimming then filtering handles the first item on its own. */
  lemma CleanCons(x: string, rest: seq<string>)
    ensures DropEmpty(TrimAll([x] + rest)) ==
      (if Trim(x) == [] then [] else [Trim(x)]) + DropEmpty(TrimAll(rest))
  {
    TrimAllCons(x, rest);
    DropEmptyAppend([Trim(x)], TrimAll(rest));
  }

  /** `map(trim)` works item by item. */
  lemma TrimAllCons(x: string, rest: seq<string>)
    ensures TrimAll([x] + rest) == [Trim(x)] + TrimAll(rest)
  {
    assert ([x] + rest)[0] == x && ([x] + rest)[1..] == rest;
  }

  /** The topic list parsed from a comma-separated string. */
  function ParseTopicList(raw: string): (topics: seq<string>)
    ensures forall i :: 0 <= i < |topics| ==>
      topics[i] != [] && Trimmed(topics[i]) && ',' !in topics[i]
  {
    var parts := Split(raw, ',');
    var trimmed := TrimAll(parts);
    forall i | 0 <= i < |trimmed|
      ensures Trimmed(trimmed[i]) && ',' !in trimmed[i]
    {
      TrimKeepsAbsent(parts[i], ',');
    }
    DropEmptyClean(trimmed);
    DropEmpty(trimmed)
  }

  /**
    The list is parsed entry by entry, in order: each comma-free entry
    contributes its trimmed text, or nothing when it is blank.
  */
  lemma ParseCons(x: string, rest: string)
    requires ',' !in x
    ensures ParseTopicList(x + [','] + rest) ==
      (if Trim(x) == [] then [] else [Trim(x)]) + ParseTopicList(rest)
  {
    SplitAfterSeparator(x, ',', rest);
    CleanCons(x, Split(rest, ','));
  }

  lemma ParseSingle(x: string)
    requires ',' !in x
    ensures ParseTopicList(x) == if Trim(x) == [] then [] else [Trim(x)]
  {
    SplitNoSeparator(x, ',');
    assert [x] == [x] + [];
    CleanCons(x, []);
  }

  /**
    A list of non-empty, trimmed, comma-free topics survives being joined with
    commas and parsed back.
  */
  lemma ParseJoinedTopics(topics: seq<string>)
    requires |topics| >= 1
    requires forall i :: 0 <= i < |topics| ==>
      topics[i] != [] && Trimmed(topics[i]) && ',' !in topics[i]
    ensures ParseTopicList(Join(topics, ',')) == topics
  {
    SplitJoin(topics, ',');
    forall i | 0 <= i < |topics|
      ensures Trim(topics[i]) == topics[i]
    {
      TrimTrimmed(topics[i]);
    }
    assert TrimAll(topics) == topics;
    DropEmptyKeeps(topics);
  }

  const DefaultTopics: string := "classroom/+/telemetry,flipper/+/+"

  /** The default subscription string yields the two default patterns. */
  lemma DefaultTopicList()
    ensures ParseTopicList(DefaultTopics) == ["classroom/+/telemetry", "flipper/+/+"]
  {
    var topics := ["classroom/+/telemetry", "flipper/+/+"];
    assert Join(topics, ',') == DefaultTopics;
    ParseJoinedTopics(topics);
  }

  /** `process.env.MQTT_TOPICS || default`: an unset or empty variable falls back. */
  function ConfiguredTopics(env: Option<string>): (topics: seq<string>)
    ensures env.None? || env.value == [] ==> topics == ["classroom/+/telemetry", "flipper/+/+"]
    ensures env.Some? && env.value != [] ==> topics == ParseTopicList(env.value)
  {
    DefaultTopicList();
    ParseTopicList(if env.None? || env.value == [] then DefaultTopics else env.value)
  }

  // ---------------------------------------------------------------------
  // classify, safeJsonParse and the message handler

  predicate StartsWith(s: string, prefix: string)
  {
    |prefix| <= |s| && s[..|prefix|] == prefix
  }

  /** `classify(topic)` */
  function Classify(topic: string): (kind: string)
    ensures kind == "telemetry" <==> StartsWith(topic, "classroom/")
    ensures kind == "flipper" <==> StartsWith(topic, "flipper/") && !StartsWith(topic, "classroom/")
    ensures kind == "unknown" <==> !StartsWith(topic, "classroom/") && !StartsWith(topic, "flipper/")
  {
    if StartsWith(topic, "classroom/") then "telemetry"
    else if StartsWith(topic, "flipper/") then "flipper"
    else "unknown"
  }

  /** The two prefixes exclude each other, so the order of the tests does not matter. */
  lemma PrefixesDisjoint(topic: string)
    ensures !(StartsWith(topic, "classroom/") && StartsWith(topic, "flipper/"))
  {
    if StartsWith(topic, "classroom/") {
      assert topic[0] == 'c';
    }
  }

  /** `classify` always answers one of its three kinds. */
  lemma ClassifyTotal(topic: string)
    ensures Classify(topic) in {"telemetry", "flipper", "unknown"}
  {
  }

  /** `topic.split("/")[1] || "?"`: the second segment, or "?" when it is missing or empty. */
  function TopicDeviceId(topic: string): (id: string)
    ensures id != []
    ensures '/' !in id
  {
    var parts := Split(topic, '/');
    if |parts| >= 2 && parts[1] != [] then parts[1] else "?"
  }

  /**
    The device id is what lies between the first and the second `/` (or the
    end of the topic).
  */
  lemma DeviceIdOfSegments(head: string, id: string, rest: string)
    requires '/' !in head && '/' !in id && id != []
    requires rest == [] || rest[0] == '/'
    ensures TopicDeviceId(head + "/" + id + rest) == id
  {
    var tail := id + rest;
    assert head + "/" + id + rest == head + ['/'] + tail;
    SplitAfterSeparator(head, '/', tail);
    if rest == [] {
      assert tail == id;
      SplitNoSeparator(id, '/');
    } else {
      assert tail == id + ['/'] + rest[1..];
      SplitAfterSeparator(id, '/', rest[1..]);
    }
  }

  /** A topic with no `/` at all has no device id. */
  lemma DeviceIdMissing(topic: string)
    requires '/' !in topic
    ensures TopicDeviceId(topic) == "?"
  {
    SplitNoSeparator(topic, '/');
  }

  /** A second segment that is empty (`a//b`, `a/`) is falsy, so it also gives "?". */
  lemma DeviceIdEmptySegment(head: string, rest: string)
    requires '/' !in head
    requires rest == [] || rest[0] == '/'
    ensures TopicDeviceId(head + "/" + rest) == "?"
  {
    assert head + "/" + rest == head + ['/'] + rest;
    SplitAfterSeparator(head, '/', rest);
    if rest != [] {
      assert rest == [] + ['/'] + rest[1..];
      SplitAfterSeparator([], '/', rest[1..]);
    }
  }

  /** The decoded payload, or the raw text when it is not JSON. */
  datatype Payload<J> = Decoded(json: J) | Raw(text: string)

  /** `{ ok, value }` of safeJsonParse. */
  datatype Parsed<J> = Parsed(ok: bool, value: Payload<J>)

  /**
    `safeJsonParse`: `decoded` is what `JSON.parse` returns for `text`, None when
    it throws.
  */
  function SafeJsonParse<J>(text: string, decoded: Option<J>): (p: Parsed<J>)
    ensures p.ok <==> decoded.Some?
    ensures p.ok ==> p.value == Decoded(decoded.value)
    ensures !p.ok ==> p.value == Raw(text)
  {
    match decoded
    case Some(j) => Parsed(true, Decoded(j))
    case None => Parsed(false, Raw(text))
  }

  /** The object broadcast to WebSocket clients (its `type` is always "mqtt"). */
  datatype Record<J> = Record(kind: string, topic: string, payload: Payload<J>, payloadIsJson: bool, ts: int)

  /** The console line of the handler (the temperature field it prints is not modelled). */
  datatype LogLine = TelemetryLog(deviceId: string) | FlipperLog(topic: string) | MqttLog(topic: string)

  datatype Handled<J> = Handled(record: Record<J>, log: LogLine)

  /** The `message` handler, given the decoded payload text and `Date.now()`. */
  function OnMessage<J>(topic: string, text: string, decoded: Option<J>, now: int): (h: Handled<J>)
    ensures h.record.kind == Classify(topic) && h.record.topic == topic && h.record.ts == now
    ensures h.record.payloadIsJson <==> decoded.Some?
    ensures h.record.payload == SafeJsonParse(text, decoded).value
    ensures !h.log.TelemetryLog? ==> h.log.topic == topic
    ensures h.log.TelemetryLog? <==> StartsWith(topic, "classroom/")
    ensures h.log.TelemetryLog? ==> h.log.deviceId == TopicDeviceId(topic)
    ensures h.log.FlipperLog? <==> Classify(topic) == "flipper"
  {
    var parsed := SafeJsonParse(text, decoded);
    var record := Record(Classify(topic), topic, parsed.value, parsed.ok, now);
    var log :=
      if record.kind == "telemetry" then TelemetryLog(TopicDeviceId(topic))
      else if record.kind == "flipper" then FlipperLog(topic)
      else MqttLog(topic);
    Handled(record, log)
  }
}
