/** Produce targets in request paths (internal/api/handler.go, produceTargetFromPath;
    internal/api/v3.go, v3ProduceTargetFromPath). Texts are byte strings; percent-encoding is that of
    section 2.1 of RFC 3986. */
module Paths {
  import opened Base
  import opened Json
  import opened Decimal

  // ---------------------------------------------------------------------------------------
  // Percent-encoding

  function HexDigit(n: int): (c: char)
    requires 0 <= n < 16
    ensures IsHex(c) && HexValue(c) == n
  {
    if n < 10 then ('0' as int + n) as char else ('A' as int + n - 10) as char
  }

  /** seg starts with a percent triplet for the byte c. */
  predicate StartsTriplet(seg: string, c: char) {
    && |seg| >= 3 && seg[0] == '%'
    && IsHex(seg[1]) && IsHex(seg[2])
    && c as int == HexValue(seg[1]) * 16 + HexValue(seg[2])
  }

  /** url.PathUnescape */
  function PathUnescape(seg: string): Option<string> {
    if seg == "" then Some("")
    else if seg[0] != '%' then
      var rest := PathUnescape(seg[1..]);
      if rest.None? then None else Some([seg[0]] + rest.value)
    else if |seg| < 3 || !IsHex(seg[1]) || !IsHex(seg[2]) then None
    else
      var rest := PathUnescape(seg[3..]);
      if rest.None? then None
      else Some([(HexValue(seg[1]) * 16 + HexValue(seg[2])) as char] + rest.value)
  }

  predicate IsKept(c: char) {
    || 'a' <= c <= 'z' || 'A' <= c <= 'Z' || '0' <= c <= '9'
    || c in {'-', '_', '.', '~', '$', '&', '+', '=', ':', '@'}
  }

  /** url.PathEscape */
  function PathEscape(s: string): string
    requires AreBytes(s)
  {
    if s == "" then ""
    else if IsKept(s[0]) then [s[0]] + PathEscape(s[1..])
    else ['%', HexDigit(s[0] as int / 16), HexDigit(s[0] as int % 16)] + PathEscape(s[1..])
  }

  /** seg is a way to write s in one path segment: each byte as itself, unless it is a percent sign
      or a slash, or as a triplet with digits of either case. */
  predicate IsEncoding(seg: string, s: string)
    decreases |seg|
  {
    if s == "" then seg == ""
    else
      || (seg != "" && seg[0] == s[0] && s[0] != '%' && s[0] != '/' && IsEncoding(seg[1..], s[1..]))
      || (StartsTriplet(seg, s[0]) && IsEncoding(seg[3..], s[1..]))
  }

  predicate NoSlash(seg: string) {
    forall i :: 0 <= i < |seg| ==> seg[i] != '/'
  }

  lemma {:induction false} UnescapeIsEncoding(seg: string)
    requires NoSlash(seg) && PathUnescape(seg).Some?
    ensures IsEncoding(seg, PathUnescape(seg).value)
  {
    if seg != "" {
      var s := PathUnescape(seg).value;
      var n := if seg[0] != '%' then 1 else 3;
      assert s[1..] == PathUnescape(seg[n..]).value;
      UnescapeIsEncoding(seg[n..]);
    }
  }

  lemma {:induction false} NoSlashBehind(seg: string, n: nat)
    requires n <= |seg| && NoSlash(seg[..n]) && NoSlash(seg[n..])
    ensures NoSlash(seg)
  {
    assert seg == seg[..n] + seg[n..];
  }

  lemma {:induction false} LiteralUnescapes(seg: string, rest: string)
    requires seg != "" && seg[0] != '%' && seg[0] != '/'
    requires NoSlash(seg[1..]) && PathUnescape(seg[1..]) == Some(rest)
    ensures NoSlash(seg) && PathUnescape(seg) == Some([seg[0]] + rest)
  {
    NoSlashBehind(seg, 1);
  }

  lemma {:induction false} TripletUnescapes(seg: string, c: char, rest: string)
    requires StartsTriplet(seg, c) && NoSlash(seg[3..]) && PathUnescape(seg[3..]) == Some(rest)
    ensures NoSlash(seg) && PathUnescape(seg) == Some([c] + rest)
  {
    NoSlashBehind(seg, 3);
  }

  lemma {:induction false} EncodingUnescapes(seg: string, s: string)
    requires IsEncoding(seg, s)
    ensures NoSlash(seg) && PathUnescape(seg) == Some(s)
    decreases |seg|
  {
    if s != "" {
      assert s == [s[0]] + s[1..];
      if StartsTriplet(seg, s[0]) && IsEncoding(seg[3..], s[1..]) {
        EncodingUnescapes(seg[3..], s[1..]);
        TripletUnescapes(seg, s[0], s[1..]);
      } else {
        EncodingUnescapes(seg[1..], s[1..]);
        LiteralUnescapes(seg, s[1..]);
      }
    }
  }

  /** Within one segment, unescaping is exactly the inverse relation of encoding. */
  lemma {:induction false} UnescapeIffEncoding(seg: string, s: string)
    ensures NoSlash(seg) && PathUnescape(seg) == Some(s) <==> IsEncoding(seg, s)
  {
    if IsEncoding(seg, s) {
      EncodingUnescapes(seg, s);
    } else if NoSlash(seg) && PathUnescape(seg) == Some(s) {
      UnescapeIsEncoding(seg);
    }
  }

  lemma {:induction false} EscapeIsEncoding(s: string)
    requires AreBytes(s)
    ensures IsEncoding(PathEscape(s), s)
  {
    if s != "" {
      EscapeIsEncoding(s[1..]);
      var seg := PathEscape(s);
      if IsKept(s[0]) {
        assert seg[1..] == PathEscape(s[1..]);
      } else {
        assert seg[3..] == PathEscape(s[1..]);
        assert StartsTriplet(seg, s[0]);
      }
    }
  }

  // ---------------------------------------------------------------------------------------
  // Segments

  /** strings.Split(s, "/") */
  function Split(s: string): (segs: seq<string>)
    ensures segs != []
  {
    if s == "" then [""]
    else
      var rest := Split(s[1..]);
      if s[0] == '/' then [""] + rest else [[s[0]] + rest[0]] + rest[1..]
  }

  function Join(segs: seq<string>): string
    requires segs != []
  {
    if |segs| == 1 then segs[0] else segs[0] + (['/'] + Join(segs[1..]))
  }

  predicate AreSegments(segs: seq<string>) {
    segs != [] && forall i :: 0 <= i < |segs| ==> NoSlash(segs[i])
  }

  lemma {:induction false} SplitSegment(seg: string)
    requires NoSlash(seg)
    ensures Split(seg) == [seg]
  {
    if seg != "" {
      SplitSegment(seg[1..]);
      assert [seg[0]] + seg[1..] == seg;
    }
  }

  lemma {:induction false} SplitFirst(seg: string, rest: string)
    requires NoSlash(seg)
    ensures Split(seg + (['/'] + rest)) == [seg] + Split(rest)
  {
    var s := seg + (['/'] + rest);
    if seg == "" {
      assert s == ['/'] + rest;
    } else {
      assert s[1..] == seg[1..] + (['/'] + rest);
      SplitFirst(seg[1..], rest);
      assert [seg[0]] + seg[1..] == seg;
    }
  }

  /** Splitting undoes joining, for any segments without slashes. */
  lemma {:induction false} SplitJoin(segs: seq<string>)
    requires AreSegments(segs)
    ensures Split(Join(segs)) == segs
  {
    if |segs| == 1 {
      SplitSegment(segs[0]);
    } else {
      SplitJoin(segs[1..]);
      SplitFirst(segs[0], Join(segs[1..]));
    }
  }

  /** And joining undoes splitting. */
  lemma {:induction false} JoinSplit(s: string)
    ensures AreSegments(Split(s)) && Join(Split(s)) == s
  {
    if s != "" {
      var rest := Split(s[1..]);
      JoinSplit(s[1..]);
      if s[0] == '/' {
        JoinPush("", rest);
      } else if |rest| > 1 {
        JoinPush([s[0]] + rest[0], rest[1..]);
        JoinPush(rest[0], rest[1..]);
        assert rest == [rest[0]] + rest[1..];
        assert ([s[0]] + rest[0]) + (['/'] + Join(rest[1..])) == [s[0]] + (rest[0] + (['/'] + Join(rest[1..])));
      }
    }
  }

  lemma {:induction false} JoinPush(first: string, rest: seq<string>)
    requires rest != []
    ensures Join([first] + rest) == first + (['/'] + Join(rest))
  {
    assert ([first] + rest)[1..] == rest;
  }

  // ---------------------------------------------------------------------------------------
  // The v2 target

  datatype Target = Target(topic: string, partition: Option<int>)

  const PREFIX: string := "/topics/"
  const PARTITIONS: string := "partitions"

  predicate HasPrefix(s: string, p: string) {
    |p| <= |s| && s[..|p|] == p
  }

  /** strconv.ParseInt(s, 10, 32) */
  function ParseInt32(s: string): Option<int> {
    var n := ParseInt(s);
    if n.Some? && -0x8000_0000 <= n.value < 0x8000_0000 then n else None
  }

  function TargetOfSegments(segments: seq<string>): Option<Target>
    requires segments != []
  {
    if |segments| != 1 && |segments| != 3 then None
    else
      var topic := PathUnescape(segments[0]);
      if topic.None? || topic.value == "" then None
      else if |segments| == 1 then Some(Target(topic.value, None))
      else if segments[1] != PARTITIONS || segments[2] == "" then None
      else
        var partition := ParseInt32(segments[2]);
        if partition.None? || partition.value < 0 then None else Some(Target(topic.value, partition))
  }

  /** produceTargetFromPath, from the escaped path on. */
  function ProduceTargetFromPath(path: string): Option<Target> {
    if !HasPrefix(path, PREFIX) || |path| == |PREFIX| then None
    else TargetOfSegments(Split(path[|PREFIX|..]))
  }

  /** The segments that spell this target. */
  predicate Spells(segments: seq<string>, t: Target) {
    && t.topic != ""
    && segments != [] && IsEncoding(segments[0], t.topic)
    && match t.partition
       case None => |segments| == 1
       case Some(p) => |segments| == 3 && segments[1] == PARTITIONS && segments[2] != "" && ParseInt32(segments[2]) == Some(p) && p >= 0
  }

  lemma {:induction false} TargetIffSpelled(segments: seq<string>, t: Target)
    requires AreSegments(segments)
    ensures TargetOfSegments(segments) == Some(t) <==> Spells(segments, t)
  {
    UnescapeIffEncoding(segments[0], t.topic);
  }

  lemma {:induction false} PartitionsHasNoSlash()
    ensures NoSlash(PARTITIONS)
  {
  }

  lemma {:induction false} DigitsHaveNoSlash(s: string)
    requires ParseInt(s).Some?
    ensures NoSlash(s)
  {
    var digits := if s != "" && (s[0] == '-' || s[0] == '+') then s[1..] else s;
    forall i | 0 <= i < |s|
      ensures s[i] != '/'
    {
      if |digits| == |s| || i > 0 {
        assert s[i] == digits[i - (|s| - |digits|)];
      }
    }
  }

  lemma {:induction false} SpellingHasNoSlash(segments: seq<string>, t: Target)
    requires Spells(segments, t)
    ensures AreSegments(segments)
  {
    EncodingUnescapes(segments[0], t.topic);
    if t.partition.Some? {
      PartitionsHasNoSlash();
      DigitsHaveNoSlash(segments[2]);
    }
  }

  /** A path is accepted as target t exactly when it is the prefix followed by a spelling of t. */
  lemma {:induction false} TargetFromPathIff(path: string, t: Target)
    ensures ProduceTargetFromPath(path) == Some(t) <==>
            exists segments: seq<string> :: Spells(segments, t) && path == PREFIX + Join(segments)
  {
    if HasPrefix(path, PREFIX) && |path| > |PREFIX| {
      var rest := path[|PREFIX|..];
      JoinSplit(rest);
      assert path == PREFIX + rest;
      TargetIffSpelled(Split(rest), t);
    }
    forall segments: seq<string> | Spells(segments, t) && path == PREFIX + Join(segments)
      ensures ProduceTargetFromPath(path) == Some(t)
    {
      SpelledPathIsRead(segments, t);
    }
  }

  lemma {:induction false} SpelledPathIsRead(segments: seq<string>, t: Target)
    requires Spells(segments, t)
    ensures ProduceTargetFromPath(PREFIX + Join(segments)) == Some(t)
  {
    var path := PREFIX + Join(segments);
    SpellingHasNoSlash(segments, t);
    SplitJoin(segments);
    TargetIffSpelled(segments, t);
    assert path[..|PREFIX|] == PREFIX;
    assert path[|PREFIX|..] == Join(segments);
  }

  /** Every target has a topic and an absent or non-negative 32-bit partition. */
  lemma {:induction false} TargetsAreValid(path: string)
    requires ProduceTargetFromPath(path).Some?
    ensures
      var t := ProduceTargetFromPath(path).value;
      t.topic != "" && (t.partition.Some? ==> 0 <= t.partition.value < 0x8000_0000)
  {
  }

  /** The path a client builds from a topic and a partition, percent-encoding the topic. */
  function PathOf(t: Target): string
    requires AreBytes(t.topic)
  {
    var topic := PathEscape(t.topic);
    PREFIX + Join(if t.partition.None? then [topic] else [topic, PARTITIONS, FormatInt(t.partition.value)])
  }

  /** Reading back the path gives exactly the topic and the partition, whatever bytes the topic holds. */
  lemma {:induction false} PathRoundTrip(t: Target)
    requires AreBytes(t.topic) && t.topic != ""
    requires t.partition.Some? ==> 0 <= t.partition.value < 0x8000_0000
    ensures ProduceTargetFromPath(PathOf(t)) == Some(t)
  {
    EscapeIsEncoding(t.topic);
    var topic := PathEscape(t.topic);
    if t.partition.None? {
      SpelledPathIsRead([topic], t);
    } else {
      IntRoundTrip(t.partition.value);
      SpelledPathIsRead([topic, PARTITIONS, FormatInt(t.partition.value)], t);
    }
  }

  // ---------------------------------------------------------------------------------------
  // The v3 target

  datatype V3Target = V3Target(clusterId: string, topic: string, batch: bool)

  const V3: string := "v3"
  const CLUSTERS: string := "clusters"
  const TOPICS: string := "topics"
  const RECORDS: string := "records"
  const RECORDS_BATCH: string := "records:batch"

  function V3TargetOfSegments(segments: seq<string>): Option<V3Target> {
    if |segments| != 6 then None
    else if segments[0] != V3 || segments[1] != CLUSTERS || segments[3] != TOPICS then None
    else
      var clusterId := PathUnescape(segments[2]);
      var topic := PathUnescape(segments[4]);
      if clusterId.None? || clusterId.value == "" then None
      else if topic.None? || topic.value == "" then None
      else if segments[5] == RECORDS then Some(V3Target(clusterId.value, topic.value, false))
      else if segments[5] == RECORDS_BATCH then Some(V3Target(clusterId.value, topic.value, true))
      else None
  }

  /** v3ProduceTargetFromPath: the leading slash is optional. */
  function V3TargetFromPath(path: string): Option<V3Target> {
    V3TargetOfSegments(Split(if path != "" && path[0] == '/' then path[1..] else path))
  }

  /** Any way to write the target, one encoded segment for the cluster and one for the topic. */
  function V3Segments(cluster: string, topic: string, batch: bool): (segs: seq<string>)
    ensures |segs| == 6
  {
    [V3, CLUSTERS, cluster, TOPICS, topic, if batch then RECORDS_BATCH else RECORDS]
  }

  lemma {:induction false} V3LiteralsHaveNoSlash()
    ensures NoSlash(V3) && NoSlash(CLUSTERS) && NoSlash(TOPICS) && NoSlash(RECORDS) && NoSlash(RECORDS_BATCH)
    ensures RECORDS != RECORDS_BATCH
  {
  }

  lemma {:induction false} V3TargetIffSpelled(segs: seq<string>, t: V3Target)
    requires AreSegments(segs)
    ensures V3TargetOfSegments(segs) == Some(t) <==>
            && t.clusterId != "" && t.topic != "" && |segs| == 6
            && segs == V3Segments(segs[2], segs[4], t.batch)
            && IsEncoding(segs[2], t.clusterId) && IsEncoding(segs[4], t.topic)
  {
    V3LiteralsHaveNoSlash();
    if |segs| == 6 {
      UnescapeIffEncoding(segs[2], t.clusterId);
      UnescapeIffEncoding(segs[4], t.topic);
    }
  }

  /** Whatever encoding of cluster and topic the client uses, the v3 path gives back the cluster, the
      topic and the batch flag. */
  lemma {:induction false} V3PathRoundTrip(t: V3Target, cluster: string, topic: string)
    requires t.clusterId != "" && t.topic != ""
    requires IsEncoding(cluster, t.clusterId) && IsEncoding(topic, t.topic)
    ensures V3TargetFromPath(['/'] + Join(V3Segments(cluster, topic, t.batch))) == Some(t)
  {
    var segs := V3Segments(cluster, topic, t.batch);
    V3LiteralsHaveNoSlash();
    EncodingUnescapes(cluster, t.clusterId);
    EncodingUnescapes(topic, t.topic);
    SplitJoin(segs);
    V3TargetIffSpelled(segs, t);
    assert (['/'] + Join(segs))[1..] == Join(segs);
  }

  /** Conversely every accepted v3 path is, up to the leading slash, such a path. */
  lemma {:induction false} V3PathIsSpelled(path: string)
    requires V3TargetFromPath(path).Some?
    ensures
      var t := V3TargetFromPath(path).value;
      var rest := if path != "" && path[0] == '/' then path[1..] else path;
      && |Split(rest)| == 6
      && var cluster, topic := Split(rest)[2], Split(rest)[4];
      && t.clusterId != "" && t.topic != ""
      && IsEncoding(cluster, t.clusterId) && IsEncoding(topic, t.topic)
      && rest == Join(V3Segments(cluster, topic, t.batch))
  {
    var rest := if path != "" && path[0] == '/' then path[1..] else path;
    JoinSplit(rest);
    V3TargetIffSpelled(Split(rest), V3TargetFromPath(path).value);
  }

  // ---------------------------------------------------------------------------------------
  // The paths, written out

  lemma {:induction false} JoinTwo(a: string, b: string)
    ensures Join([a, b]) == a + (['/'] + b)
  {
    assert [a, b][1..] == [b];
  }

  lemma {:induction false} JoinThree(a: string, b: string, c: string)
    ensures Join([a, b, c]) == a + (['/'] + (b + (['/'] + c)))
  {
    assert [a, b, c][1..] == [b, c];
    JoinTwo(b, c);
  }

  /** /topics/T and /topics/T/partitions/P are what the v2 reader accepts. */
  lemma {:induction false} V2PathsWrittenOut(t: Target, topic: string, digits: string)
    requires t.topic != "" && IsEncoding(topic, t.topic)
    requires t.partition.Some? ==> ParseInt(digits) == t.partition && 0 <= t.partition.value < 0x8000_0000
    ensures t.partition.None? ==> ProduceTargetFromPath("/topics/" + topic) == Some(t)
    ensures t.partition.Some? ==> ProduceTargetFromPath("/topics/" + (topic + (['/'] + ("partitions" + (['/'] + digits))))) == Some(t)
  {
    if t.partition.None? {
      SpelledPathIsRead([topic], t);
    } else {
      SpelledPathIsRead([topic, PARTITIONS, digits], t);
      JoinThree(topic, PARTITIONS, digits);
    }
  }

  /** /v3/clusters/C/topics/T/records, with :batch for a batch. */
  lemma {:induction false} V3PathsWrittenOut(t: V3Target, cluster: string, topic: string)
    requires t.clusterId != "" && t.topic != "" && IsEncoding(cluster, t.clusterId) && IsEncoding(topic, t.topic)
    ensures V3TargetFromPath(['/'] + Join(["v3", "clusters", cluster, "topics", topic, if t.batch then "records:batch" else "records"])) == Some(t)
  {
    V3PathRoundTrip(t, cluster, topic);
  }
}
