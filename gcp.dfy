/** The Google Cloud Platform helpers of gcp.go: the severity value GCP
 *  uses for each level, and the `httpRequest` block GcpHttp() builds, with
 *  its optional fields.
 */
module Gcp {
  import opened Bytes
  import opened Data
  import opened Lager

  // -----------------------------------------------------------------------
  // GcpLevelName()
  // -----------------------------------------------------------------------

  /** The GCP severities, as the text GcpLevelName() returns. */
  const Critical: Text := [54, 48, 48]  // "600"
  const Error: Text := [53, 48, 48]     // "500"
  const Warning: Text := [52, 48, 48]   // "400"
  const Notice: Text := [51, 48, 48]    // "300"
  const Info: Text := [50, 48, 48]      // "200"
  const Debug: Text := [49, 48, 48]     // "100"
  const Default: Text := [48]           // "0"

  /** GcpLevelName(): the severity for a level name, by its first byte,
   *  which must be an upper case initial; "0" for anything else. */
  function GcpLevelName(lev: Text): (r: Text)
    requires |lev| > 0
  {
    var c := lev[0];
    if c == 'P' as byte || c == 'E' as byte then Critical
    else if c == 'F' as byte then Error
    else if c == 'W' as byte then Warning
    else if c == 'N' as byte then Notice
    else if c == 'A' as byte || c == 'I' as byte then Info
    else if c == 'T' as byte || c == 'D' as byte || c == 'O' as byte || c == 'G' as byte then Debug
    else Default
  }

  /** The severity of each level, in level order: Panic and Exit are
   *  Critical, Fail Error, Warn Warning, Note Notice, Access and Info Info,
   *  the rest Debug. */
  const Severities: seq<Text> :=
    [Critical, Critical, Error, Warning, Notice, Info, Info, Debug, Debug, Debug, Debug]

  /** Every level name gets its level's severity, never "0". */
  lemma GcpLevelNames(l: Level)
    requires 0 <= l < NLevels as int
    ensures GcpLevelName(LevelName(l)) == Severities[l]
    ensures GcpLevelName(LevelName(l)) != Default
  {
    LevelOfInitial(l);
    assert Initials == [80, 69, 70, 87, 78, 65, 73, 84, 68, 79, 71];
  }

  /** Only the first byte counts, and the result is a real severity
   *  exactly when that byte is the upper case initial of a level. */
  lemma GcpLevelNameFirstByte(lev: Text)
    requires |lev| > 0
    ensures GcpLevelName(lev) == GcpLevelName(lev[..1])
    ensures GcpLevelName(lev) != Default <==> lev[0] in Initials
    ensures lev[0] in Initials ==> GcpLevelName(lev) == Severities[LevelOf(lev[0]).value]
  {
    assert Initials == [80, 69, 70, 87, 78, 65, 73, 84, 68, 79, 71];
    if lev[0] in Initials {
      LevelOfOnlyInitials(lev[0]);
      var l := LevelOf(lev[0]).value;
      LevelOfInitial(l);
    }
  }

  // -----------------------------------------------------------------------
  // GcpHttp()
  // -----------------------------------------------------------------------

  /** What GcpHttp() reads from an `*http.Request`.  `url` is what
   *  RequestUrl(req).String() gives and `remoteHost` the host part
   *  net.SplitHostPort() finds in `remoteAddr` (None when it fails). */
  datatype Request = Request(httpMethod: Text, url: Text, proto: Text, contentLength: int64,
                             remoteAddr: Text, remoteHost: Option<Text>, referer: Text, userAgent: Text)

  /** What GcpHttp() reads from an `*http.Response`. */
  datatype Response = Response(statusCode: int64, contentLength: int64)

  /** A `*time.Time` start: whether it is the zero time, and the seconds
   *  elapsed since, as "%.4f" formats them. */
  datatype Start = Start(zero: bool, seconds: Text)

  /** The keys of the block. */
  const MethodKey: Text := [114, 101, 113, 117, 101, 115, 116, 77, 101, 116, 104, 111, 100]  // "requestMethod"
  const UrlKey: Text := [114, 101, 113, 117, 101, 115, 116, 85, 114, 108]  // "requestUrl"
  const ProtocolKey: Text := [112, 114, 111, 116, 111, 99, 111, 108]  // "protocol"
  const StatusKey: Text := [115, 116, 97, 116, 117, 115]  // "status"
  const RequestSizeKey: Text := [114, 101, 113, 117, 101, 115, 116, 83, 105, 122, 101]  // "requestSize"
  const ResponseSizeKey: Text := [114, 101, 115, 112, 111, 110, 115, 101, 83, 105, 122, 101]  // "responseSize"
  const LatencyKey: Text := [108, 97, 116, 101, 110, 99, 121]  // "latency"
  const RemoteIpKey: Text := [114, 101, 109, 111, 116, 101, 73, 112]  // "remoteIp"
  const RefererKey: Text := [114, 101, 102, 101, 114, 101, 114]  // "referer"
  const UserAgentKey: Text := [117, 115, 101, 114, 65, 103, 101, 110, 116]  // "userAgent"

  /** Whether the start time counts: given and not zero. */
  predicate Started(start: Option<Start>) {
    start.Some? && !start.value.zero
  }

  /** The status GcpHttp() logs: the response's code, 0 when there is
   *  only a start time, -1 (omitted) otherwise. */
  function StatusOf(resp: Option<Response>, start: Option<Start>): int64 {
    if resp.Some? then resp.value.statusCode else if Started(start) then 0 else -1
  }

  /** The response size GcpHttp() logs: -1 (omitted) without a
   *  response. */
  function RespSize(resp: Option<Response>): int64 {
    if resp.Some? then resp.value.contentLength else -1
  }

  /** The latency text: the seconds and an "s", only with a non-zero
   *  start. */
  function Lag(start: Option<Start>): Text {
    if Started(start) then start.value.seconds + ['s' as byte] else []
  }

  /** The remote address GcpHttp() logs: its host part when
   *  net.SplitHostPort() finds one. */
  function RemoteIp(req: Request): Text {
    if req.remoteHost.Some? then req.remoteHost.value else req.remoteAddr
  }

  /** GcpHttp(): the raw map of the request (and response) details, each
   *  optional field behind Unless(). */
  function GcpHttp(req: Request, resp: Option<Response>, start: Option<Start>): (r: Value)
    ensures r.Raw? && |r.elts| == 20
  {
    var status := StatusOf(resp, start);
    var respSize := RespSize(resp);
    var lag := Lag(start);
    var remote := RemoteIp(req);
    Raw([Str(MethodKey), Str(req.httpMethod)] +
        [Str(UrlKey), Str(req.url)] +
        [Str(ProtocolKey), Str(req.proto)] +
        [Unless(status == -1, StatusKey), Int(status)] +
        [Unless(req.contentLength < 0, RequestSizeKey), Int(req.contentLength)] +
        [Unless(respSize < 0, ResponseSizeKey), Int(respSize)] +
        [Unless(lag == [], LatencyKey), Str(lag)] +
        [Str(RemoteIpKey), Str(remote)] +
        [Unless(req.referer == [], RefererKey), Str(req.referer)] +
        [Unless(req.userAgent == [], UserAgentKey), Str(req.userAgent)])
  }

  /** The pairs of a raw map the encoder writes: a Skip key drops its
   *  value with it. */
  function Visible(elts: seq<Value>): seq<(Value, Value)>
    decreases |elts|
  {
    if |elts| < 2 then []
    else if elts[0] == Skip then Visible(elts[2..])
    else [(elts[0], elts[1])] + Visible(elts[2..])
  }

  /** The visible pairs of two raw maps put together, the first of even
   *  length, are those of each in turn. */
  lemma {:induction false} VisibleAppend(a: seq<Value>, b: seq<Value>, pairs: nat)
    requires |a| == 2 * pairs
    ensures Visible(a + b) == Visible(a) + Visible(b)
    decreases pairs
  {
    if a != [] {
      VisibleAppend(a[2..], b, pairs - 1);
      assert (a + b)[2..] == a[2..] + b;
    } else {
      assert a + b == b;
    }
  }

  /** A pair that shows only when `cond` holds. */
  function Opt(cond: bool, k: Text, v: Value): seq<(Value, Value)> {
    if cond then [(Str(k), v)] else []
  }

  /** A pair that always shows. */
  function Field(k: Text, v: Value): seq<(Value, Value)> {
    [(Str(k), v)]
  }

  /** The fields GcpHttp() shows, in order: method, URL and protocol
   *  always; status unless it is -1; the request size unless negative; the
   *  response size only with a response whose size is not negative; the
   *  latency only with a non-zero start; the remote address always (its
   *  host part when it has one); referer and user agent unless empty. */
  lemma GcpHttpFields(req: Request, resp: Option<Response>, start: Option<Start>)
    ensures Visible(GcpHttp(req, resp, start).elts) ==
      Field(MethodKey, Str(req.httpMethod)) + Field(UrlKey, Str(req.url)) + Field(ProtocolKey, Str(req.proto)) +
      Opt(StatusOf(resp, start) != -1, StatusKey, Int(StatusOf(resp, start))) +
      Opt(req.contentLength >= 0, RequestSizeKey, Int(req.contentLength)) +
      Opt(RespSize(resp) >= 0, ResponseSizeKey, Int(RespSize(resp))) +
      Opt(Started(start), LatencyKey, Str(Lag(start))) +
      Field(RemoteIpKey, Str(RemoteIp(req))) +
      Opt(req.referer != [], RefererKey, Str(req.referer)) +
      Opt(req.userAgent != [], UserAgentKey, Str(req.userAgent))
  {
    var status := StatusOf(resp, start);
    var lag := Lag(start);
    var remote := RemoteIp(req);
    var c0 := [Str(MethodKey), Str(req.httpMethod)];
    var c1 := [Str(UrlKey), Str(req.url)];
    var c2 := [Str(ProtocolKey), Str(req.proto)];
    var c3 := [Unless(status == -1, StatusKey), Int(status)];
    var c4 := [Unless(req.contentLength < 0, RequestSizeKey), Int(req.contentLength)];
    var c5 := [Unless(RespSize(resp) < 0, ResponseSizeKey), Int(RespSize(resp))];
    var c6 := [Unless(lag == [], LatencyKey), Str(lag)];
    var c7 := [Str(RemoteIpKey), Str(remote)];
    var c8 := [Unless(req.referer == [], RefererKey), Str(req.referer)];
    var c9 := [Unless(req.userAgent == [], UserAgentKey), Str(req.userAgent)];
    assert GcpHttp(req, resp, start).elts == c0 + c1 + c2 + c3 + c4 + c5 + c6 + c7 + c8 + c9;
    TenPairs(c0, c1, c2, c3, c4, c5, c6, c7, c8, c9);
    UnlessPair(status == -1, StatusKey, Int(status));
    UnlessPair(req.contentLength < 0, RequestSizeKey, Int(req.contentLength));
    UnlessPair(RespSize(resp) < 0, ResponseSizeKey, Int(RespSize(resp)));
    UnlessPair(lag == [], LatencyKey, Str(lag));
    UnlessPair(req.referer == [], RefererKey, Str(req.referer));
    UnlessPair(req.userAgent == [], UserAgentKey, Str(req.userAgent));
    VisiblePair(Str(MethodKey), Str(req.httpMethod));
    VisiblePair(Str(UrlKey), Str(req.url));
    VisiblePair(Str(ProtocolKey), Str(req.proto));
    VisiblePair(Str(RemoteIpKey), Str(remote));
  }

  /** An optional pair shows when Unless() gives its key. */
  lemma UnlessPair(cond: bool, k: Text, v: Value)
    ensures Visible([Unless(cond, k), v]) == Opt(!cond, k, v)
  {
    VisiblePair(Unless(cond, k), v);
  }

  /** The visible pairs of ten pairs in a row. */
  lemma TenPairs(c0: seq<Value>, c1: seq<Value>, c2: seq<Value>, c3: seq<Value>, c4: seq<Value>,
                 c5: seq<Value>, c6: seq<Value>, c7: seq<Value>, c8: seq<Value>, c9: seq<Value>)
    requires |c0| == |c1| == |c2| == |c3| == |c4| == |c5| == |c6| == |c7| == |c8| == 2
    ensures Visible(c0 + c1 + c2 + c3 + c4 + c5 + c6 + c7 + c8 + c9) ==
      Visible(c0) + Visible(c1) + Visible(c2) + Visible(c3) + Visible(c4) +
      Visible(c5) + Visible(c6) + Visible(c7) + Visible(c8) + Visible(c9)
  {
    VisibleAppend(c0, c1, 1);
    VisibleAppend(c0 + c1, c2, 2);
    VisibleAppend(c0 + c1 + c2, c3, 3);
    VisibleAppend(c0 + c1 + c2 + c3, c4, 4);
    VisibleAppend(c0 + c1 + c2 + c3 + c4, c5, 5);
    VisibleAppend(c0 + c1 + c2 + c3 + c4 + c5, c6, 6);
    VisibleAppend(c0 + c1 + c2 + c3 + c4 + c5 + c6, c7, 7);
    VisibleAppend(c0 + c1 + c2 + c3 + c4 + c5 + c6 + c7, c8, 8);
    VisibleAppend(c0 + c1 + c2 + c3 + c4 + c5 + c6 + c7 + c8, c9, 9);
  }

  /** A single pair shows unless its key is Skip. */
  lemma VisiblePair(k: Value, v: Value)
    ensures Visible([k, v]) == if k == Skip then [] else [(k, v)]
  {
    assert [k, v][2..] == [];
  }

  /** A zero start time is the same as none. */
  lemma ZeroStartIgnored(req: Request, resp: Option<Response>, seconds: Text)
    ensures GcpHttp(req, resp, Some(Start(true, seconds))) == GcpHttp(req, resp, None)
  {
  }
}
