/** The CLI's channel URIs: `parse` and `render`. */
module ChannelSpec {
  import opened Octets
  import opened Results
  import opened Decimals
  import opened Text
  import opened Percent
  import opened Utf8

  datatype PcapSave = SessionDir | PcapngFile | Both
  datatype PcapPublish = StatsOnly | Sampled | Full

  datatype PcapConfig = PcapConfig(
    interface: Text, displayName: Option<Text>, promiscuous: bool, snaplen: u32, bufferBytes: Option<u32>,
    timeoutMs: u32, immediate: bool, filter: Option<Text>, saveMode: PcapSave, pcapngPath: Option<Text>,
    publishMode: PcapPublish)

  datatype ChannelSpec =
    | File(path: Text, follow: bool)
    | Tcp(addr: Text)
    | Udp(bind: Text)
    | Capture(config: PcapConfig)
    | Serial(port: Text, baud: u32, dataBits: u8, parity: Text, stopBits: u8, flow: Text)
    | Process(argv: seq<Text>)
    | Pipe(path: Text)
    | Mock(tag: Text)
    | Remote(url: Text)

  datatype SpecError =
    | MissingScheme | UnsupportedKind | MissingEquals | BadNumber | BadMode | NoProgram | InvalidCapture

  const AMP: byte := 0x26
  const EQUALS: byte := 0x3d
  const QUESTION: byte := 0x3f
  const COLON: byte := 0x3a
  const SLASH: byte := 0x2f
  const SEMICOLON: byte := 0x3b

  const DEFAULT_SNAPLEN: u32 := 65535
  const DEFAULT_TIMEOUT_MS: u32 := 1000

  type Query = map<Text, Text>

  /** The query parameters of a capture URI, with their short forms. */
  datatype Param =
    | DisplayName | Display | Promiscuous | Promisc | Snaplen | BufferBytes | Buffer | TimeoutMs | Timeout
    | Immediate | Filter | SaveMode | Save | PcapngPath | Pcapng | PublishMode | Publish

  function Name(p: Param): Text {
    Ascii(Label(p))
  }

  function Label(p: Param): string {
    match p
    case DisplayName => "display_name"
    case Display => "display"
    case Promiscuous => "promiscuous"
    case Promisc => "promisc"
    case Snaplen => "snaplen"
    case BufferBytes => "buffer_bytes"
    case Buffer => "buffer"
    case TimeoutMs => "timeout_ms"
    case Timeout => "timeout"
    case Immediate => "immediate"
    case Filter => "filter"
    case SaveMode => "save_mode"
    case Save => "save"
    case PcapngPath => "pcapng_path"
    case Pcapng => "pcapng"
    case PublishMode => "publish_mode"
    case Publish => "publish"
  }

  // ---- Parsing ----

  /** `split_once("://")`. */
  function SplitScheme(s: Text): Option<(Text, Text)> {
    if |s| < 3 then None
    else if s[0] == COLON && s[1] == SLASH && s[2] == SLASH then Some(([], s[3..]))
    else match SplitScheme(s[1..])
      case None => None
      case Some((scheme, rest)) => Some(([s[0]] + scheme, rest))
  }

  predicate SchemeEndsAt(s: Text, i: int) {
    0 <= i < |s| - 2 && s[i] == ':' as int && s[i + 1] == '/' as int && s[i + 2] == '/' as int
  }

  /** The cut is at the first `://`, and there is none if it is missing. */
  lemma {:induction false} SplitSchemeMeans(s: Text)
    ensures SplitScheme(s).None? ==> forall i :: !SchemeEndsAt(s, i)
    ensures SplitScheme(s).Some? ==>
      var (scheme, rest) := SplitScheme(s).value;
      s == scheme + [':' as int, '/' as int, '/' as int] + rest && forall i :: i < |scheme| ==> !SchemeEndsAt(s, i)
  {
    if |s| >= 3 && !(s[0] == COLON && s[1] == SLASH && s[2] == SLASH) {
      var t := s[1..];
      SplitSchemeMeans(t);
      assert !SchemeEndsAt(s, 0);
      assert forall i :: i > 0 ==> (SchemeEndsAt(s, i) <==> SchemeEndsAt(t, i - 1));
    }
  }

  /** The parameters of the given pieces of a query string; a later one replaces an earlier one. */
  function QueryOf(parts: seq<Text>): Result<Query, SpecError> {
    if parts == [] then Ok(map[])
    else
      var last := parts[|parts| - 1];
      match QueryOf(parts[..|parts| - 1])
      case Err(e) => Err(e)
      case Ok(query) =>
        if last == [] then Ok(query)
        else match SplitOnce(last, EQUALS)
          case None => Err(MissingEquals)
          case Some((key, value)) => Ok(query[key := DecodeText(value)])
  }

  /** `parse_query`. */
  method ParseQuery(q: Text) returns (out: Result<Query, SpecError>)
    ensures out == QueryOf(Split(q, AMP))
  {
    hide SplitOnce, DecodeText, Split;
    var parts := Split(q, AMP);
    var query: Query := map[];
    for i := 0 to |parts|
      invariant QueryOf(parts[..i]) == Ok(query)
    {
      assert parts[..i + 1][..i] == parts[..i];
      if parts[i] != [] {
        match SplitOnce(parts[i], EQUALS)
        case None =>
          QueryErr(parts, i + 1);
          return Err(MissingEquals);
        case Some((key, value)) =>
          query := query[key := DecodeText(value)];
      }
    }
    assert parts[..|parts|] == parts;
    return Ok(query);
  }

  /** The first malformed piece decides. */
  lemma {:induction false} QueryErr(parts: seq<Text>, n: nat)
    requires n <= |parts| && QueryOf(parts[..n]).Err?
    ensures QueryOf(parts) == QueryOf(parts[..n])
    decreases |parts| - n
  {
    if n == |parts| {
      assert parts[..n] == parts;
    } else {
      assert parts[..n + 1][..n] == parts[..n];
      QueryErr(parts, n + 1);
    }
  }

  /** `str::parse` for an unsigned integer that holds at most `max`. */
  function ParseUnsigned(s: Text, max: nat): (r: Option<nat>)
    ensures r.Some? ==> r.value <= max
  {
    var digits := if |s| > 1 && s[0] == PLUS then s[1..] else s;
    if digits == [] then None
    else match ParseDigits(digits)
      case None => None
      case Some(n) => if n <= max then Some(n) else None
  }

  /** An unsigned number is one or more digits, perhaps after a plus sign, with a value within the bound. */
  lemma UnsignedIff(s: Text, max: nat)
    ensures var digits := if |s| > 1 && s[0] == '+' as int then s[1..] else s;
      ParseUnsigned(s, max).Some? <==>
      && digits != [] && (forall i :: 0 <= i < |digits| ==> '0' as int <= digits[i] <= '9' as int)
      && ParseDigits(digits).Some? && ParseDigits(digits).value <= max
  {
    ParseDigitsIff(if |s| > 1 && s[0] == PLUS then s[1..] else s);
  }

  function ParseNum(q: Query, key: Text, max: nat, dflt: nat): (r: Result<nat, SpecError>)
    requires dflt <= max
    ensures r.Ok? ==> r.value <= max
  {
    if key !in q then Ok(dflt)
    else match ParseUnsigned(q[key], max)
      case None => Err(BadNumber)
      case Some(n) => Ok(n)
  }

  function ParseOptionalNum(q: Query, p: Param): Result<Option<u32>, SpecError> {
    if Name(p) !in q || q[Name(p)] == [] then Ok(None)
    else match ParseUnsigned(q[Name(p)], U32_MAX)
      case None => Err(BadNumber)
      case Some(n) => Ok(Some(n))
  }

  /** The value of the first of two spellings that is present. */
  function FirstOf(q: Query, p: Param, alias: Param): Option<Text> {
    if Name(p) in q then Some(q[Name(p)]) else if Name(alias) in q then Some(q[Name(alias)]) else None
  }

  predicate IsTrue(v: Text) {
    v == Ascii("1") || v == Ascii("true") || v == Ascii("yes") || v == Ascii("on")
  }

  function ParseBool(q: Query, p: Param, alias: Param): bool {
    var v := FirstOf(q, p, alias);
    v.Some? && IsTrue(v.value)
  }

  /** Trimmed, and absent when nothing is left. */
  function Tidy(s: Option<Text>): Option<Text> {
    if s.None? || Trim(s.value) == [] then None else Some(Trim(s.value))
  }

  function OptionalString(q: Query, p: Param, alias: Param): Option<Text> {
    Tidy(FirstOf(q, p, alias))
  }

  function SaveLabel(m: PcapSave): string {
    match m case SessionDir => "session" case PcapngFile => "pcapng" case Both => "both"
  }

  function SaveToken(m: PcapSave): Text {
    Ascii(SaveLabel(m))
  }

  function ParseSave(s: Option<Text>): Result<PcapSave, SpecError> {
    if s.None? || s.value == Ascii("session") || s.value == Ascii("session-dir") then Ok(SessionDir)
    else if s.value == Ascii("pcapng") then Ok(PcapngFile)
    else if s.value == Ascii("both") then Ok(Both)
    else Err(BadMode)
  }

  function PublishLabel(m: PcapPublish): string {
    match m case StatsOnly => "stats-only" case Sampled => "sampled" case Full => "full"
  }

  function PublishToken(m: PcapPublish): Text {
    Ascii(PublishLabel(m))
  }

  function ParsePublish(s: Option<Text>): Result<PcapPublish, SpecError> {
    if s.None? || s.value == Ascii("stats") || s.value == Ascii("stats-only") then Ok(StatsOnly)
    else if s.value == Ascii("sample") || s.value == Ascii("sampled") then Ok(Sampled)
    else if s.value == Ascii("full") || s.value == Ascii("packet-list") then Ok(Full)
    else Err(BadMode)
  }

  /** `PcapConfig::validate`. */
  predicate Valid(c: PcapConfig) {
    Trim(c.interface) != [] && c.snaplen > 0 && c.bufferBytes != Some(0)
  }

  function ParseTimeout(q: Query): Result<nat, SpecError> {
    if Name(TimeoutMs) in q then ParseNum(q, Name(TimeoutMs), U32_MAX, DEFAULT_TIMEOUT_MS)
    else ParseNum(q, Name(Timeout), U32_MAX, DEFAULT_TIMEOUT_MS)
  }

  function ParsePcap(body: Text, q: Query): Result<PcapConfig, SpecError> {
    var snaplen :- ParseNum(q, Name(Snaplen), U32_MAX, DEFAULT_SNAPLEN);
    var bufferBytes :- ParseOptionalNum(q, BufferBytes);
    var buffer :- ParseOptionalNum(q, Buffer);
    var timeoutMs :- ParseTimeout(q);
    var saveMode :- ParseSave(OptionalString(q, SaveMode, Save));
    var publishMode :- ParsePublish(OptionalString(q, PublishMode, Publish));
    var config := PcapConfig(
      Trim(DecodeText(body)), OptionalString(q, DisplayName, Display), ParseBool(q, Promiscuous, Promisc), snaplen,
      if bufferBytes.Some? then bufferBytes else buffer, timeoutMs, ParseBool(q, Immediate, Immediate),
      OptionalString(q, Filter, Filter), saveMode, OptionalString(q, PcapngPath, Pcapng), publishMode);
    if Valid(config) then Ok(config) else Err(InvalidCapture)
  }

  function TrimSlashes(s: Text): (t: Text)
    ensures t == [] || t[0] != SLASH
  {
    if s != [] && s[0] == SLASH then TrimSlashes(s[1..]) else s
  }

  function NonEmpty(parts: seq<Text>): seq<Text> {
    if parts == [] then []
    else (if parts[0] == [] then [] else [parts[0]]) + NonEmpty(parts[1..])
  }

  function ParseArgv(body: Text, q: Query): Result<ChannelSpec, SpecError> {
    var program := if body == [] then [] else [DecodeText(TrimSlashes(body))];
    var args := if Ascii("args") in q then NonEmpty(Split(q[Ascii("args")], SEMICOLON)) else [];
    if program + args == [] then Err(NoProgram) else Ok(Process(program + args))
  }

  function GetOr(q: Query, key: Text, dflt: Text): Text {
    if key in q then q[key] else dflt
  }

  function ParseSerial(port: Text, q: Query): Result<ChannelSpec, SpecError> {
    var baud :- ParseNum(q, Ascii("baud"), U32_MAX, 115200);
    var dataBits :- ParseNum(q, Ascii("data"), 255, 8);
    var stopBits :- ParseNum(q, Ascii("stop"), 255, 1);
    Ok(Serial(port, baud, dataBits, GetOr(q, Ascii("parity"), Ascii("none")), stopBits,
              GetOr(q, Ascii("flow"), Ascii("none"))))
  }

  predicate IsOn(v: Text) {
    v == Ascii("1") || v == Ascii("true") || v == Ascii("yes")
  }

  function ParseKind(scheme: Text, body: Text, q: Query): Result<ChannelSpec, SpecError> {
    if scheme == Ascii("file") then
      Ok(File(TrimSlashes(body), Ascii("follow") in q && IsOn(q[Ascii("follow")])))
    else if scheme == Ascii("tcp") then Ok(Tcp(body))
    else if scheme == Ascii("udp") then Ok(Udp(body))
    else if scheme == Ascii("pcap") then
      (match ParsePcap(body, q)
       case Err(e) => Err(e)
       case Ok(config) => Ok(Capture(config)))
    else if scheme == Ascii("serial") then ParseSerial(body, q)
    else if scheme == Ascii("process") then ParseArgv(body, q)
    else if scheme == Ascii("pipe") then Ok(Pipe(TrimSlashes(body)))
    else if scheme == Ascii("mock") then Ok(Mock(body))
    else if scheme == Ascii("remote") then Ok(Remote(DecodeText(body)))
    else Err(UnsupportedKind)
  }

  /** `parse`. */
  function Parse(spec: Text): Result<ChannelSpec, SpecError> {
    match SplitScheme(spec)
    case None => Err(MissingScheme)
    case Some((scheme, rest)) =>
      match SplitOnce(rest, QUESTION)
      case None => ParseKind(scheme, rest, map[])
      case Some((body, q)) =>
        match QueryOf(Split(q, AMP))
        case Err(e) => Err(e)
        case Ok(query) => ParseKind(scheme, body, query)
  }

  // ---- Rendering ----

  function Flag(b: bool): Text {
    if b then Ascii("1") else Ascii("0")
  }

  type Params = seq<(Param, Text)>

  function One(p: Param, v: Text): Params {
    [(p, v)]
  }

  function IfSome(p: Param, v: Option<Text>): Params {
    if v.None? then [] else One(p, Encode(v.value))
  }

  /** `Path::display`: a path need not be well-formed text. */
  function Displayed(path: Option<Text>): Option<Text> {
    if path.None? then None else Some(Lossy(path.value))
  }

  function BufferParam(v: Option<u32>): Params {
    if v.None? then [] else One(BufferBytes, Decimal(v.value))
  }

  function LimitParams(c: PcapConfig): Params {
    One(Snaplen, Decimal(c.snaplen)) + One(Promisc, Flag(c.promiscuous)) + One(TimeoutMs, Decimal(c.timeoutMs))
  }

  function ModeParams(c: PcapConfig): Params {
    One(Immediate, Flag(c.immediate)) + One(Save, SaveToken(c.saveMode)) + One(Publish, PublishToken(c.publishMode))
  }

  function PcapParams(c: PcapConfig): Params {
    LimitParams(c) + ModeParams(c) + IfSome(DisplayName, c.displayName) + BufferParam(c.bufferBytes)
    + IfSome(Filter, c.filter) + IfSome(PcapngPath, Displayed(c.pcapngPath))
  }

  function Pieces(params: Params): (parts: seq<Text>)
    ensures |parts| == |params|
    ensures forall i :: 0 <= i < |params| ==> parts[i] == Name(params[i].0) + [EQUALS] + params[i].1
  {
    seq(|params|, i requires 0 <= i < |params| => Name(params[i].0) + [EQUALS] + params[i].1)
  }

  const SCHEME_END: Text := [COLON, SLASH, SLASH]

  function RenderPcap(c: PcapConfig): Text {
    Ascii("pcap") + SCHEME_END + Encode(c.interface) + [QUESTION] + Join(Pieces(PcapParams(c)), AMP)
  }

  function RenderSerial(s: ChannelSpec): Text
    requires s.Serial?
  {
    Ascii("serial") + SCHEME_END + s.port + Ascii("?baud=") + Decimal(s.baud) + Ascii("&data=") + Decimal(s.dataBits)
    + Ascii("&parity=") + s.parity + Ascii("&stop=") + Decimal(s.stopBits) + Ascii("&flow=") + s.flow
  }

  function FollowQuery(follow: bool): Text {
    if follow then [QUESTION] + Ascii("follow") + [EQUALS] + Ascii("1") else []
  }

  function RenderRaw(spec: ChannelSpec): Text {
    match spec
    case File(path, follow) =>
      Ascii("file") + SCHEME_END + [SLASH] + TrimSlashes(path) + FollowQuery(follow)
    case Tcp(addr) => Ascii("tcp") + SCHEME_END + addr
    case Udp(bind) => Ascii("udp") + SCHEME_END + bind
    case Capture(config) => RenderPcap(config)
    case Serial(_, _, _, _, _, _) => RenderSerial(spec)
    case Process(argv) =>
      Ascii("process:///")
      + (if argv == [] then [] else argv[0])
      + (if |argv| <= 1 then [] else Ascii("?args=") + Join(argv[1..], SEMICOLON))
    case Pipe(path) => Ascii("pipe") + SCHEME_END + [SLASH] + TrimSlashes(path)
    case Mock(tag) => Ascii("mock") + SCHEME_END + tag
    case Remote(url) => Ascii("remote") + SCHEME_END + Encode(url)
  }

  /** `replace(' ', "%20")`. */
  function EscapeSpaces(s: Text): Text {
    if s == [] then []
    else (if s[0] == SPACE then Ascii("%20") else [s[0]]) + EscapeSpaces(s[1..])
  }

  /** `render`. */
  function Render(spec: ChannelSpec): Text {
    EscapeSpaces(RenderRaw(spec))
  }

  // ---- Pieces of the round trip ----

  lemma {:induction false} NoSpaces(s: Text)
    requires SPACE !in s
    ensures EscapeSpaces(s) == s
  {
    if s != [] {
      NoSpaces(s[1..]);
    }
  }

  lemma {:induction false} SchemeAt(scheme: Text, rest: Text)
    requires COLON !in scheme
    ensures SplitScheme(scheme + SCHEME_END + rest) == Some((scheme, rest))
  {
    var s := scheme + SCHEME_END + rest;
    if scheme == [] {
      assert s[3..] == rest;
    } else {
      assert s[1..] == scheme[1..] + SCHEME_END + rest;
      SchemeAt(scheme[1..], rest);
      assert scheme == [scheme[0]] + scheme[1..];
    }
  }

  /** Two parameters have the same name only if they are the same. */
  lemma NameInjective(p: Param, q: Param)
    requires Name(p) == Name(q)
    ensures p == q
  {
    hide Name;
    NameShape(p);
    NameShape(q);
  }

  function Shape(p: Param): (int, int, int) {
    match p
    case DisplayName => (12, 0x64, 0x69)
    case Display => (7, 0x64, 0x69)
    case Promiscuous => (11, 0x70, 0x72)
    case Promisc => (7, 0x70, 0x72)
    case Snaplen => (7, 0x73, 0x6e)
    case BufferBytes => (12, 0x62, 0x75)
    case Buffer => (6, 0x62, 0x75)
    case TimeoutMs => (10, 0x74, 0x69)
    case Timeout => (7, 0x74, 0x69)
    case Immediate => (9, 0x69, 0x6d)
    case Filter => (6, 0x66, 0x69)
    case SaveMode => (9, 0x73, 0x61)
    case Save => (4, 0x73, 0x61)
    case PcapngPath => (11, 0x70, 0x63)
    case Pcapng => (6, 0x70, 0x63)
    case PublishMode => (12, 0x70, 0x75)
    case Publish => (7, 0x70, 0x75)
  }

  lemma NameShape(p: Param)
    ensures |Name(p)| >= 4 && (|Name(p)|, Name(p)[0], Name(p)[1]) == Shape(p)
  {
  }

  predicate IsWord(s: string) {
    forall i :: 0 <= i < |s| ==> 'a' <= s[i] <= 'z' || s[i] == '_' || s[i] == '-'
  }

  lemma WordSafe(s: string)
    requires IsWord(s)
    ensures Safe(Ascii(s))
  {
  }

  lemma LabelIsWord(p: Param)
    ensures IsWord(Label(p))
  {
  }

  lemma NameSafe(p: Param)
    ensures Safe(Name(p))
  {
    LabelIsWord(p);
    WordSafe(Label(p));
  }

  /** What a list of parameters means: the map that the query parser should build. */
  function Bind(params: Params): Query {
    if params == [] then map[]
    else
      var last := params[|params| - 1];
      Bind(params[..|params| - 1])[Name(last.0) := DecodeText(last.1)]
  }

  function Get(params: Params, p: Param): Option<Text> {
    if params == [] then None
    else
      var last := params[|params| - 1];
      if last.0 == p then Some(DecodeText(last.1)) else Get(params[..|params| - 1], p)
  }

  /** The query holds exactly `v` for parameter `p`. */
  predicate Holds(q: Query, p: Param, v: Option<Text>) {
    if v.None? then Name(p) !in q else Name(p) in q && q[Name(p)] == v.value
  }

  lemma {:induction false} BindGet(params: Params, p: Param)
    ensures Holds(Bind(params), p, Get(params, p))
  {
    hide Name, DecodeText;
    if params != [] {
      var last := params[|params| - 1];
      BindGet(params[..|params| - 1], p);
      if Name(last.0) == Name(p) {
        NameInjective(last.0, p);
      }
    }
  }

  lemma {:induction false} GetConcat(a: Params, b: Params, p: Param)
    ensures Get(a + b, p) == if Get(b, p).Some? then Get(b, p) else Get(a, p)
  {
    hide DecodeText;
    if b == [] {
      assert a + b == a;
    } else {
      assert (a + b)[..|a + b| - 1] == a + b[..|b| - 1];
      GetConcat(a, b[..|b| - 1], p);
    }
  }

  lemma SafeConcat(a: Params, b: Params)
    requires SafeValues(a) && SafeValues(b)
    ensures SafeValues(a + b)
  {
    hide Safe;
  }

  lemma {:induction false} QueryOfPieces(params: Params)
    ensures QueryOf(Pieces(params)) == Ok(Bind(params))
  {
    hide Name, DecodeText, SplitOnce;
    if params != [] {
      var parts, n := Pieces(params), |params| - 1;
      assert parts[..n] == Pieces(params[..n]);
      QueryOfPieces(params[..n]);
      NameSafe(params[n].0);
      SplitOnceAt(Name(params[n].0), EQUALS, params[n].1);
    }
  }

  predicate SafeValues(params: Params) {
    forall i :: 0 <= i < |params| ==> Safe(params[i].1)
  }

  lemma PieceWithout(p: Param, v: Text, b: byte)
    requires Safe(v) && !IsUnreserved(b) && b != PERCENT && b != EQUALS
    ensures b !in Name(p) + [EQUALS] + v
  {
    hide Name;
    NameSafe(p);
  }

  /** Splitting a rendered query at the ampersands gives back its parameters. */
  lemma QueryRoundTrip(params: Params)
    requires params != [] && SafeValues(params)
    ensures QueryOf(Split(Join(Pieces(params), AMP), AMP)) == Ok(Bind(params))
    ensures SPACE !in Join(Pieces(params), AMP)
  {
    hide Name, QueryOf, Split, Join, Bind;
    var parts := Pieces(params);
    forall i | 0 <= i < |parts| ensures AMP !in parts[i] && SPACE !in parts[i] {
      PieceWithout(params[i].0, params[i].1, AMP);
      PieceWithout(params[i].0, params[i].1, SPACE);
    }
    SplitJoin(parts, AMP);
    JoinWithout(parts, AMP, SPACE);
    QueryOfPieces(params);
  }

  // ---- Capture URIs ----

  lemma DecimalSafe(n: nat)
    ensures Safe(Decimal(n)) && DecodeText(Decimal(n)) == Decimal(n)
  {
    DecodeTextPlain(Decimal(n));
  }

  lemma FlagSafe(b: bool)
    ensures Safe(Flag(b)) && DecodeText(Flag(b)) == Flag(b) && (IsTrue(Flag(b)) <==> b)
  {
    DecodeTextPlain(Flag(b));
    assert Ascii("1")[0] == 0x31 && Ascii("0")[0] == 0x30;
  }

  lemma WordBack(s: string)
    requires IsWord(s) && s != ""
    ensures Safe(Ascii(s)) && DecodeText(Ascii(s)) == Ascii(s) && Tidy(Some(Ascii(s))) == Some(Ascii(s))
  {
    hide DecodeText, Trim;
    WordSafe(s);
    DecodeTextPlain(Ascii(s));
    TrimVisible(Ascii(s));
  }

  lemma SaveWord(m: PcapSave)
    ensures IsWord(SaveLabel(m)) && SaveLabel(m) != ""
  {
  }

  lemma SaveParses(m: PcapSave)
    ensures ParseSave(Some(SaveToken(m))) == Ok(m)
  {
    assert |SaveToken(m)| == match m case SessionDir => 7 case PcapngFile => 6 case Both => 4;
  }

  lemma SaveBack(m: PcapSave)
    ensures Safe(SaveToken(m)) && DecodeText(SaveToken(m)) == SaveToken(m)
    ensures ParseSave(Tidy(Some(SaveToken(m)))) == Ok(m)
  {
    hide Safe, DecodeText, Tidy, ParseSave, SaveLabel, IsWord;
    SaveWord(m);
    WordBack(SaveLabel(m));
    SaveParses(m);
  }

  lemma PublishWord(m: PcapPublish)
    ensures IsWord(PublishLabel(m)) && PublishLabel(m) != ""
  {
  }

  lemma PublishParses(m: PcapPublish)
    ensures ParsePublish(Some(PublishToken(m))) == Ok(m)
  {
    assert |PublishToken(m)| == match m case StatsOnly => 10 case Sampled => 7 case Full => 4;
  }

  lemma PublishBack(m: PcapPublish)
    ensures Safe(PublishToken(m)) && DecodeText(PublishToken(m)) == PublishToken(m)
    ensures ParsePublish(Tidy(Some(PublishToken(m)))) == Ok(m)
  {
    hide Safe, DecodeText, Tidy, ParsePublish, PublishLabel, IsWord;
    PublishWord(m);
    WordBack(PublishLabel(m));
    PublishParses(m);
  }

  lemma NumBack(n: nat, max: nat)
    requires n <= max
    ensures ParseUnsigned(Decimal(n), max) == Some(n)
  {
    ParseDecimal(n);
  }

  /** What a rendered query should say about each parameter. */
  function Expected(c: PcapConfig, p: Param): Option<Text> {
    match p
    case Snaplen => Some(Decimal(c.snaplen))
    case Promisc => Some(Flag(c.promiscuous))
    case TimeoutMs => Some(Decimal(c.timeoutMs))
    case Immediate => Some(Flag(c.immediate))
    case Save => Some(SaveToken(c.saveMode))
    case Publish => Some(PublishToken(c.publishMode))
    case DisplayName => c.displayName
    case BufferBytes => if c.bufferBytes.None? then None else Some(Decimal(c.bufferBytes.value))
    case Filter => c.filter
    case PcapngPath => Displayed(c.pcapngPath)
    case _ => None
  }

  lemma OneGet(p: Param, v: Text, k: Param)
    ensures Get(One(p, v), k) == if p == k then Some(DecodeText(v)) else None
    ensures Safe(v) ==> SafeValues(One(p, v))
  {
    hide DecodeText;
    assert One(p, v)[..0] == [];
  }

  /** Strings are well-formed, as their type guarantees; a path may be anything. */
  predicate IsText(c: PcapConfig) {
    IsUtf8(c.interface) && (c.displayName.Some? ==> IsUtf8(c.displayName.value))
    && (c.filter.Some? ==> IsUtf8(c.filter.value))
  }

  lemma DisplayedIsText(path: Option<Text>)
    ensures Displayed(path).Some? ==> IsUtf8(Displayed(path).value)
  {
    hide Lossy, IsUtf8;
    if path.Some? {
      LossyIsUtf8(path.value);
    }
  }

  lemma IfSomeGet(p: Param, v: Option<Text>, k: Param)
    requires v.Some? ==> IsUtf8(v.value)
    ensures Get(IfSome(p, v), k) == if p == k then v else None
    ensures SafeValues(IfSome(p, v))
  {
    hide DecodeText, Encode, IsUtf8;
    if v.Some? {
      OneGet(p, Encode(v.value), k);
      RoundTripIff(v.value);
      EncodeSafe(v.value);
    }
  }

  lemma BufferGet(c: PcapConfig, k: Param)
    ensures Get(BufferParam(c.bufferBytes), k) == if k == BufferBytes then Expected(c, k) else None
    ensures SafeValues(BufferParam(c.bufferBytes))
  {
    hide DecodeText, Decimal;
    if c.bufferBytes.Some? {
      OneGet(BufferBytes, Decimal(c.bufferBytes.value), k);
      DecimalSafe(c.bufferBytes.value);
    }
  }

  lemma LimitGet(c: PcapConfig, k: Param)
    ensures Get(LimitParams(c), k) == if k.Snaplen? || k.Promisc? || k.TimeoutMs? then Expected(c, k) else None
    ensures SafeValues(LimitParams(c))
  {
    hide DecodeText, Decimal, Flag, Safe, SafeValues, Get, One;
    var s, p, t := Decimal(c.snaplen), Flag(c.promiscuous), Decimal(c.timeoutMs);
    DecimalSafe(c.snaplen);
    FlagSafe(c.promiscuous);
    DecimalSafe(c.timeoutMs);
    OneGet(Snaplen, s, k);
    OneGet(Promisc, p, k);
    OneGet(TimeoutMs, t, k);
    GetConcat(One(Snaplen, s), One(Promisc, p), k);
    GetConcat(One(Snaplen, s) + One(Promisc, p), One(TimeoutMs, t), k);
    SafeConcat(One(Snaplen, s), One(Promisc, p));
    SafeConcat(One(Snaplen, s) + One(Promisc, p), One(TimeoutMs, t));
  }

  lemma ModeGet(c: PcapConfig, k: Param)
    ensures Get(ModeParams(c), k) == if k.Immediate? || k.Save? || k.Publish? then Expected(c, k) else None
    ensures SafeValues(ModeParams(c))
  {
    hide DecodeText, Flag, SaveToken, PublishToken, Safe, SafeValues, Get, One;
    var i, v, u := Flag(c.immediate), SaveToken(c.saveMode), PublishToken(c.publishMode);
    FlagSafe(c.immediate);
    SaveBack(c.saveMode);
    PublishBack(c.publishMode);
    OneGet(Immediate, i, k);
    OneGet(Save, v, k);
    OneGet(Publish, u, k);
    GetConcat(One(Immediate, i), One(Save, v), k);
    GetConcat(One(Immediate, i) + One(Save, v), One(Publish, u), k);
    SafeConcat(One(Immediate, i), One(Save, v));
    SafeConcat(One(Immediate, i) + One(Save, v), One(Publish, u));
  }

  lemma PcapGet(c: PcapConfig, k: Param)
    requires IsText(c)
    ensures Get(PcapParams(c), k) == Expected(c, k)
    ensures SafeValues(PcapParams(c))
  {
    hide Get, LimitParams, ModeParams, IfSome, BufferParam, SafeValues, IsUtf8, Displayed;
    var limits, modes, display, buffer, filter, path :=
      LimitParams(c), ModeParams(c), IfSome(DisplayName, c.displayName), BufferParam(c.bufferBytes),
      IfSome(Filter, c.filter), IfSome(PcapngPath, Displayed(c.pcapngPath));
    LimitGet(c, k);
    ModeGet(c, k);
    IfSomeGet(DisplayName, c.displayName, k);
    BufferGet(c, k);
    IfSomeGet(Filter, c.filter, k);
    DisplayedIsText(c.pcapngPath);
    IfSomeGet(PcapngPath, Displayed(c.pcapngPath), k);
    GetConcat(limits, modes, k);
    SafeConcat(limits, modes);
    GetConcat(limits + modes, display, k);
    SafeConcat(limits + modes, display);
    GetConcat(limits + modes + display, buffer, k);
    SafeConcat(limits + modes + display, buffer);
    GetConcat(limits + modes + display + buffer, filter, k);
    SafeConcat(limits + modes + display + buffer, filter);
    GetConcat(limits + modes + display + buffer + filter, path, k);
    SafeConcat(limits + modes + display + buffer + filter, path);
  }

  lemma PcapSafe(c: PcapConfig)
    requires IsText(c)
    ensures PcapParams(c) != [] && SafeValues(PcapParams(c))
  {
    PcapGet(c, Snaplen);
    assert LimitParams(c)[0].0 == Snaplen;
  }

  /** What comes back: the same capture, with its strings trimmed and empty ones dropped. */
  function Normal(c: PcapConfig): PcapConfig {
    c.(interface := Trim(c.interface), displayName := Tidy(c.displayName), filter := Tidy(c.filter),
       pcapngPath := Tidy(Displayed(c.pcapngPath)))
  }

  predicate Describes(q: Query, c: PcapConfig) {
    forall p: Param :: Holds(q, p, Expected(c, p))
  }

  lemma NumbersBack(q: Query, c: PcapConfig)
    requires Describes(q, c)
    ensures ParseNum(q, Name(Snaplen), U32_MAX, DEFAULT_SNAPLEN) == Ok(c.snaplen)
    ensures ParseTimeout(q) == Ok(c.timeoutMs)
    ensures ParseOptionalNum(q, BufferBytes) == Ok(c.bufferBytes)
    ensures ParseOptionalNum(q, Buffer) == Ok(None)
  {
    hide Name, Decimal, ParseUnsigned;
    assert Holds(q, Snaplen, Expected(c, Snaplen));
    assert Holds(q, TimeoutMs, Expected(c, TimeoutMs));
    assert Holds(q, BufferBytes, Expected(c, BufferBytes));
    assert Holds(q, Buffer, Expected(c, Buffer));
    NumBack(c.snaplen, U32_MAX);
    NumBack(c.timeoutMs, U32_MAX);
    if c.bufferBytes.Some? {
      NumBack(c.bufferBytes.value, U32_MAX);
    }
  }

  lemma StringsBack(q: Query, c: PcapConfig)
    requires Describes(q, c)
    ensures OptionalString(q, DisplayName, Display) == Tidy(c.displayName)
    ensures OptionalString(q, Filter, Filter) == Tidy(c.filter)
    ensures OptionalString(q, PcapngPath, Pcapng) == Tidy(Displayed(c.pcapngPath))
  {
    hide Name, Tidy;
    assert Holds(q, DisplayName, Expected(c, DisplayName)) && Holds(q, Display, Expected(c, Display));
    assert Holds(q, Filter, Expected(c, Filter));
    assert Holds(q, PcapngPath, Expected(c, PcapngPath)) && Holds(q, Pcapng, Expected(c, Pcapng));
  }

  lemma ModesBack(q: Query, c: PcapConfig)
    requires Describes(q, c)
    ensures ParseBool(q, Promiscuous, Promisc) == c.promiscuous
    ensures ParseBool(q, Immediate, Immediate) == c.immediate
    ensures ParseSave(OptionalString(q, SaveMode, Save)) == Ok(c.saveMode)
    ensures ParsePublish(OptionalString(q, PublishMode, Publish)) == Ok(c.publishMode)
  {
    hide Name, Tidy, Flag, IsTrue, SaveToken, PublishToken, ParseSave, ParsePublish;
    assert Holds(q, Promiscuous, Expected(c, Promiscuous)) && Holds(q, Promisc, Expected(c, Promisc));
    assert Holds(q, Immediate, Expected(c, Immediate));
    assert Holds(q, SaveMode, Expected(c, SaveMode)) && Holds(q, Save, Expected(c, Save));
    assert Holds(q, PublishMode, Expected(c, PublishMode)) && Holds(q, Publish, Expected(c, Publish));
    FlagSafe(c.promiscuous);
    FlagSafe(c.immediate);
    SaveBack(c.saveMode);
    PublishBack(c.publishMode);
  }

  lemma ParsePcapBack(q: Query, c: PcapConfig)
    requires Describes(q, c) && IsUtf8(c.interface)
    ensures ParsePcap(Encode(c.interface), q) == if Valid(c) then Ok(Normal(c)) else Err(InvalidCapture)
  {
    hide Describes, Name, Trim, DecodeText, Encode, Tidy, ParseNum, ParseTimeout, ParseOptionalNum, OptionalString;
    hide ParseBool, ParseSave, ParsePublish;
    NumbersBack(q, c);
    StringsBack(q, c);
    ModesBack(q, c);
    RoundTripIff(c.interface);
    TrimIdempotent(c.interface);
  }

  lemma SafeWithout(s: Text, b: byte)
    requires Safe(s) && !IsUnreserved(b) && b != PERCENT
    ensures b !in s
  {
  }

  lemma SchemeWord(s: string)
    requires IsWord(s)
    ensures COLON !in Ascii(s) && SPACE !in Ascii(s)
  {
    WordSafe(s);
  }

  lemma PcapText(c: PcapConfig)
    requires IsText(c)
    ensures Render(Capture(c)) == RenderPcap(c)
    ensures SplitScheme(RenderPcap(c)) ==
      Some((Ascii("pcap"), Encode(c.interface) + [QUESTION] + Join(Pieces(PcapParams(c)), AMP)))
  {
    hide Encode, Join, Pieces, PcapParams, Ascii, Safe, SplitScheme, EscapeSpaces, SafeValues;
    var body, query := Encode(c.interface), Join(Pieces(PcapParams(c)), AMP);
    EncodeSafe(c.interface);
    SafeWithout(body, SPACE);
    PcapSafe(c);
    QueryRoundTrip(PcapParams(c));
    SchemeWord("pcap");
    assert RenderPcap(c) == Ascii("pcap") + SCHEME_END + (body + [QUESTION] + query);
    SchemeAt(Ascii("pcap"), body + [QUESTION] + query);
    NoSpaces(RenderPcap(c));
  }

  lemma PcapQuery(c: PcapConfig)
    requires IsText(c)
    ensures QueryOf(Split(Join(Pieces(PcapParams(c)), AMP), AMP)).Ok?
    ensures Describes(QueryOf(Split(Join(Pieces(PcapParams(c)), AMP), AMP)).value, c)
  {
    hide QueryOf, Split, Join, Pieces, PcapParams, SafeValues, Bind, Get, Holds, Expected;
    PcapSafe(c);
    QueryRoundTrip(PcapParams(c));
    forall p: Param ensures Holds(Bind(PcapParams(c)), p, Expected(c, p)) {
      BindGet(PcapParams(c), p);
      PcapGet(c, p);
    }
  }

  lemma PcapDispatch(body: Text, q: Query)
    ensures ParseKind(Ascii("pcap"), body, q) ==
      match ParsePcap(body, q) case Err(e) => Err(e) case Ok(config) => Ok(Capture(config))
  {
    hide ParsePcap;
    assert Ascii("pcap")[0] == 0x70 && Ascii("file")[0] == 0x66;
    assert |Ascii("pcap")| == 4 && |Ascii("tcp")| == 3 && |Ascii("udp")| == 3;
  }

  /** Every capture spec: it renders to a URI that parses to its normal form, unless it is invalid. */
  lemma PcapLaw(c: PcapConfig)
    requires IsText(c)
    ensures Parse(Render(Capture(c))) ==
      if Trim(c.interface) != [] && c.snaplen > 0 && c.bufferBytes != Some(0) then Ok(Capture(Normal(c)))
      else Err(InvalidCapture)
  {
    hide Render, RenderPcap, SplitScheme, SplitOnce, QueryOf, Split, Join, Pieces, PcapParams, Encode, Describes;
    hide ParsePcap, ParseKind, Ascii, Normal, Safe, Trim;
    var body, query := Encode(c.interface), Join(Pieces(PcapParams(c)), AMP);
    PcapText(c);
    EncodeSafe(c.interface);
    SafeWithout(body, QUESTION);
    SplitOnceAt(body, QUESTION, query);
    PcapQuery(c);
    var q := QueryOf(Split(query, AMP)).value;
    ParsePcapBack(q, c);
    PcapDispatch(body, q);
  }

  /** A string that parsing leaves alone. */
  predicate Tidied(s: Option<Text>) {
    s.Some? ==> s.value != [] && Trim(s.value) == s.value
  }

  /** A capture spec survives the round trip exactly when it is valid, none of its strings needs trimming, and its
      path is text. */
  lemma PcapRoundTripIff(c: PcapConfig)
    requires IsText(c)
    ensures Parse(Render(Capture(c))) == Ok(Capture(c)) <==>
      c.interface != [] && c.snaplen > 0 && c.bufferBytes != Some(0)
      && Trim(c.interface) == c.interface && Tidied(c.displayName) && Tidied(c.filter)
      && Tidied(c.pcapngPath) && (c.pcapngPath.Some? ==> IsUtf8(c.pcapngPath.value))
  {
    hide Parse, Render, Trim, IsUtf8, Lossy;
    PcapLaw(c);
    if c.pcapngPath.Some? {
      PathIff(c.pcapngPath.value);
    }
  }

  lemma PathIff(path: Text)
    ensures Tidy(Some(Lossy(path))) == Some(path) <==> path != [] && Trim(path) == path && IsUtf8(path)
  {
    hide Trim, IsUtf8, Lossy;
    LossyIff(path);
    LossyIsUtf8(path);
    if Tidy(Some(Lossy(path))) == Some(path) {
      TrimUtf8(Lossy(path));
    }
  }

  /** One round trip is enough: what it returns survives every further one. */
  lemma PcapStable(c: PcapConfig)
    requires IsText(c) && Parse(Render(Capture(c))).Ok?
    ensures Parse(Render(Parse(Render(Capture(c))).value)) == Parse(Render(Capture(c)))
  {
    hide Parse, Render, Trim, IsUtf8, Lossy;
    PcapLaw(c);
    NormalIsText(c);
    PcapLaw(Normal(c));
    TrimIdempotent(c.interface);
    TidyIdempotent(c.displayName);
    TidyIdempotent(c.filter);
    TidyIdempotent(Displayed(c.pcapngPath));
  }

  lemma TidyIsText(s: Option<Text>)
    requires s.Some? ==> IsUtf8(s.value)
    ensures var t := Tidy(s); t.Some? ==> IsUtf8(t.value) && Displayed(t) == t
  {
    hide Trim, IsUtf8, Lossy;
    if s.Some? {
      TrimUtf8(s.value);
      LossyIff(Trim(s.value));
    }
  }

  lemma NormalIsText(c: PcapConfig)
    requires IsText(c)
    ensures IsText(Normal(c)) && Displayed(Normal(c).pcapngPath) == Normal(c).pcapngPath
  {
    hide Trim, IsUtf8, Displayed, Tidy;
    TrimUtf8(c.interface);
    TidyIsText(c.displayName);
    TidyIsText(c.filter);
    DisplayedIsText(c.pcapngPath);
    TidyIsText(Displayed(c.pcapngPath));
    DisplayedNothing();
  }

  lemma DisplayedNothing()
    ensures Displayed(None) == None
  {
  }

  lemma TidyIdempotent(s: Option<Text>)
    ensures Tidy(Tidy(s)) == Tidy(s)
  {
    hide Trim;
    if s.Some? {
      TrimIdempotent(s.value);
    }
  }

  // ---- Spellings and defaults ----

  /** An interface alone: everything else takes its default. */
  lemma DefaultCapture(interface: Text)
    requires IsUtf8(interface)
    ensures Parse(Ascii("pcap") + SCHEME_END + Encode(interface)) ==
      if Trim(interface) == [] then Err(InvalidCapture)
      else Ok(Capture(PcapConfig(Trim(interface), None, false, 65_535, None, 1000, false, None, SessionDir, None,
                                 StatsOnly)))
  {
    hide SplitScheme, Encode, Ascii, IsUtf8, Trim, DecodeText, SplitOnce, Name, ParseKind, Safe;
    var body := Encode(interface);
    SchemeWord("pcap");
    SchemeAt(Ascii("pcap"), body);
    EncodeSafe(interface);
    SafeWithout(body, QUESTION);
    ParseWithout(Ascii("pcap") + SCHEME_END + body, Ascii("pcap"), body);
    RoundTripIff(interface);
    TrimIdempotent(interface);
    PcapDispatch(body, map[]);
  }

  /** The two spellings of a parameter. */
  predicate Spells(long: Param, short: Param) {
    match long
    case DisplayName => short == Display
    case Promiscuous => short == Promisc
    case BufferBytes => short == Buffer
    case TimeoutMs => short == Timeout
    case SaveMode => short == Save
    case PcapngPath => short == Pcapng
    case PublishMode => short == Publish
    case _ => false
  }

  lemma NamesDiffer()
    ensures forall p: Param, q: Param :: Name(p) == Name(q) ==> p == q
  {
    forall p: Param, q: Param | Name(p) == Name(q) ensures p == q {
      NameInjective(p, q);
    }
  }

  /** What a query says about a parameter. */
  function Said(q: Query, p: Param): Option<Text> {
    if Name(p) in q then Some(q[Name(p)]) else None
  }

  /** What a capture is parsed from: for each parameter, its value under either spelling. */
  lemma ParsesAlike(body: Text, q1: Query, q2: Query)
    requires FirstOf(q1, DisplayName, Display) == FirstOf(q2, DisplayName, Display)
    requires FirstOf(q1, Promiscuous, Promisc) == FirstOf(q2, Promiscuous, Promisc)
    requires FirstOf(q1, TimeoutMs, Timeout) == FirstOf(q2, TimeoutMs, Timeout)
    requires FirstOf(q1, SaveMode, Save) == FirstOf(q2, SaveMode, Save)
    requires FirstOf(q1, PcapngPath, Pcapng) == FirstOf(q2, PcapngPath, Pcapng)
    requires FirstOf(q1, PublishMode, Publish) == FirstOf(q2, PublishMode, Publish)
    requires Said(q1, Snaplen) == Said(q2, Snaplen) && Said(q1, Immediate) == Said(q2, Immediate)
    requires Said(q1, Filter) == Said(q2, Filter) && BufferOf(q1) == BufferOf(q2)
    ensures ParsePcap(body, q1) == ParsePcap(body, q2)
  {
    hide Name, ParseUnsigned, Trim, DecodeText, Valid, ParseOptionalNum, ParseSave, ParsePublish, Tidy, IsTrue;
    TimeoutIs(q1);
    TimeoutIs(q2);
  }

  function BufferOf(q: Query): Result<Option<u32>, SpecError> {
    var bufferBytes :- ParseOptionalNum(q, BufferBytes);
    var buffer :- ParseOptionalNum(q, Buffer);
    Ok(if bufferBytes.Some? then bufferBytes else buffer)
  }

  lemma TimeoutIs(q: Query)
    ensures ParseTimeout(q) ==
      match FirstOf(q, TimeoutMs, Timeout)
      case None => Ok(1000)
      case Some(v) =>
        match ParseUnsigned(v, U32_MAX) case None => Err(BadNumber) case Some(n) => Ok(n)
  {
    hide Name, ParseUnsigned;
  }

  lemma AliasFirst(q: Query, long: Param, short: Param, v: Text, p: Param, a: Param)
    requires Said(q, long).None? && Said(q, short).None?
    requires (p == long && a == short) || (p != long && p != short && a != long && a != short)
    ensures FirstOf(q[Name(long) := v], p, a) == FirstOf(q[Name(short) := v], p, a)
  {
    hide Name;
    NamesDiffer();
  }

  lemma AliasSaid(q: Query, long: Param, short: Param, v: Text, p: Param)
    requires p != long && p != short
    ensures Said(q[Name(long) := v], p) == Said(q[Name(short) := v], p) == Said(q, p)
  {
    hide Name;
    NamesDiffer();
  }

  lemma AliasBuffer(q: Query, long: Param, short: Param, v: Text)
    requires Said(q, long).None? && Said(q, short).None? && Spells(long, short)
    ensures BufferOf(q[Name(long) := v]) == BufferOf(q[Name(short) := v])
  {
    hide Name, ParseUnsigned;
    NamesDiffer();
  }

  /** One spelling alone means what the other would. */
  lemma SpellingsAgree(body: Text, q: Query, long: Param, short: Param, v: Text)
    requires Spells(long, short) && Said(q, long).None? && Said(q, short).None?
    ensures ParsePcap(body, q[Name(long) := v]) == ParsePcap(body, q[Name(short) := v])
  {
    hide Name, FirstOf, Said, BufferOf, ParsePcap;
    AliasFirst(q, long, short, v, DisplayName, Display);
    AliasFirst(q, long, short, v, Promiscuous, Promisc);
    AliasFirst(q, long, short, v, TimeoutMs, Timeout);
    AliasFirst(q, long, short, v, SaveMode, Save);
    AliasFirst(q, long, short, v, PcapngPath, Pcapng);
    AliasFirst(q, long, short, v, PublishMode, Publish);
    AliasSaid(q, long, short, v, Snaplen);
    AliasSaid(q, long, short, v, Immediate);
    AliasSaid(q, long, short, v, Filter);
    AliasBuffer(q, long, short, v);
    ParsesAlike(body, q[Name(long) := v], q[Name(short) := v]);
  }

  lemma ShortFirst(q: Query, long: Param, short: Param, v: Text, p: Param, a: Param)
    requires Said(q, long).Some? && Spells(long, short) && Spells(p, a)
    ensures FirstOf(q[Name(short) := v], p, a) == FirstOf(q, p, a)
  {
    hide Name;
    NamesDiffer();
  }

  /** With both, the long spelling wins; but a short `buffer` that is no number is still refused. */
  lemma LongWins(body: Text, q: Query, long: Param, short: Param, v: Text)
    requires Spells(long, short) && Said(q, long).Some?
    requires long == BufferBytes ==> Said(q, long) != Some([]) && (v == [] || ParseUnsigned(v, U32_MAX).Some?)
    ensures Said(q, short).None? ==> ParsePcap(body, q[Name(short) := v]) == ParsePcap(body, q)
  {
    hide Name, FirstOf, BufferOf, ParsePcap, ParseUnsigned;
    if Said(q, short).None? {
      ShortFirst(q, long, short, v, DisplayName, Display);
      ShortFirst(q, long, short, v, Promiscuous, Promisc);
      ShortFirst(q, long, short, v, TimeoutMs, Timeout);
      ShortFirst(q, long, short, v, SaveMode, Save);
      ShortFirst(q, long, short, v, PcapngPath, Pcapng);
      ShortFirst(q, long, short, v, PublishMode, Publish);
      AliasSaid(q, long, short, v, Snaplen);
      AliasSaid(q, long, short, v, Immediate);
      AliasSaid(q, long, short, v, Filter);
      ShortBuffer(q, long, short, v);
      ParsesAlike(body, q[Name(short) := v], q);
    }
  }

  lemma ShortBuffer(q: Query, long: Param, short: Param, v: Text)
    requires Spells(long, short) && Said(q, long).Some? && Said(q, short).None?
    requires long == BufferBytes ==> Said(q, long) != Some([]) && (v == [] || ParseUnsigned(v, U32_MAX).Some?)
    ensures BufferOf(q[Name(short) := v]) == BufferOf(q)
  {
    hide Name, ParseUnsigned;
    NamesDiffer();
  }

  /** The spellings as they are written. */
  predicate Alias(long: string, short: string) {
    || (long == "display_name" && short == "display")
    || (long == "promiscuous" && short == "promisc")
    || (long == "buffer_bytes" && short == "buffer")
    || (long == "timeout_ms" && short == "timeout")
    || (long == "save_mode" && short == "save")
    || (long == "pcapng_path" && short == "pcapng")
    || (long == "publish_mode" && short == "publish")
  }

  lemma AliasParams(long: string, short: string) returns (p: Param, a: Param)
    requires Alias(long, short)
    ensures Spells(p, a) && Label(p) == long && Label(a) == short
  {
    p, a := if long == "display_name" then DisplayName else if long == "promiscuous" then Promiscuous
            else if long == "buffer_bytes" then BufferBytes else if long == "timeout_ms" then TimeoutMs
            else if long == "save_mode" then SaveMode else if long == "pcapng_path" then PcapngPath else PublishMode,
            if short == "display" then Display else if short == "promisc" then Promisc
            else if short == "buffer" then Buffer else if short == "timeout" then Timeout
            else if short == "save" then Save else if short == "pcapng" then Pcapng else Publish;
  }

  lemma AliasesAgree(body: Text, q: Query, long: string, short: string, v: Text)
    requires Alias(long, short) && Ascii(long) !in q && Ascii(short) !in q
    ensures ParsePcap(body, q[Ascii(long) := v]) == ParsePcap(body, q[Ascii(short) := v])
  {
    hide Ascii, ParsePcap, Label, Alias;
    var p, a := AliasParams(long, short);
    SpellingsAgree(body, q, p, a, v);
  }

  lemma SameWord(a: string, b: string)
    requires IsWord(a) && IsWord(b)
    ensures Ascii(a) == Ascii(b) <==> a == b
  {
    if Ascii(a) == Ascii(b) {
      assert |a| == |Ascii(a)| && |b| == |Ascii(b)|;
      forall i | 0 <= i < |a| ensures a[i] == b[i] {
        assert Ascii(a)[i] == Ascii(b)[i];
      }
    }
  }

  lemma ModesAreWords()
    ensures IsWord("session") && IsWord("session-dir") && IsWord("pcapng") && IsWord("both")
    ensures IsWord("stats") && IsWord("stats-only") && IsWord("sample") && IsWord("sampled")
    ensures IsWord("full") && IsWord("packet-list")
    ensures IsWord("true") && IsWord("yes") && IsWord("on")
  {
  }

  /** The words that a capture URI understands, and no others. */
  lemma SaveWords(s: string)
    requires IsWord(s)
    ensures ParseSave(Some(Ascii(s))) ==
      if s == "session" || s == "session-dir" then Ok(SessionDir) else if s == "pcapng" then Ok(PcapngFile)
      else if s == "both" then Ok(Both) else Err(BadMode)
  {
    hide Ascii, IsWord;
    ModesAreWords();
    SameWord(s, "session");
    SameWord(s, "session-dir");
    SameWord(s, "pcapng");
    SameWord(s, "both");
  }

  lemma PublishWords(s: string)
    requires IsWord(s)
    ensures ParsePublish(Some(Ascii(s))) ==
      if s == "stats" || s == "stats-only" then Ok(StatsOnly) else if s == "sample" || s == "sampled" then Ok(Sampled)
      else if s == "full" || s == "packet-list" then Ok(Full) else Err(BadMode)
  {
    hide Ascii, IsWord;
    ModesAreWords();
    SameWord(s, "stats");
    SameWord(s, "stats-only");
    SameWord(s, "sample");
    SameWord(s, "sampled");
    SameWord(s, "full");
    SameWord(s, "packet-list");
  }

  lemma BoolWords(s: string)
    requires IsWord(s)
    ensures IsTrue(Ascii(s)) <==> s == "true" || s == "yes" || s == "on"
    ensures IsOn(Ascii(s)) <==> s == "true" || s == "yes"
  {
    hide IsWord;
    ModesAreWords();
    NotOne(s);
    hide Ascii;
    SameWord(s, "true");
    SameWord(s, "yes");
    SameWord(s, "on");
  }

  lemma NotOne(s: string)
    requires IsWord(s)
    ensures Ascii(s) != Ascii("1")
  {
    assert Ascii("1")[0] == 0x31;
    assert |s| == 1 ==> Ascii(s)[0] >= 0x2d && Ascii(s)[0] != 0x31;
  }

  // ---- The text of a capture URI ----

  function Shown(name: string, v: Option<Text>): Text {
    if v.None? then [] else Ascii(name) + v.value
  }

  function EncodedText(v: Option<Text>): Option<Text> {
    if v.None? then None else Some(Encode(v.value))
  }

  function Tail(params: Params): Text {
    if params == [] then [] else [AMP] + Name(params[0].0) + [EQUALS] + params[0].1 + Tail(params[1..])
  }

  lemma {:induction false} TailConcat(a: Params, b: Params)
    ensures Tail(a + b) == Tail(a) + Tail(b)
  {
    hide Name;
    if a == [] {
      assert a + b == b;
    } else {
      assert (a + b)[1..] == a[1..] + b;
      TailConcat(a[1..], b);
    }
  }

  lemma {:induction false} JoinTail(params: Params)
    requires params != []
    ensures [AMP] + Join(Pieces(params), AMP) == Tail(params)
  {
    hide Name;
    var parts := Pieces(params);
    if |params| == 1 {
      assert Tail(params[1..]) == [];
    } else {
      assert parts[1..] == Pieces(params[1..]);
      JoinTail(params[1..]);
    }
  }

  lemma TailOne(p: Param, v: Text)
    ensures Tail(One(p, v)) == [AMP] + Name(p) + [EQUALS] + v
  {
    hide Name;
    assert Tail(One(p, v)[1..]) == [];
  }

  lemma NameText(p: Param, name: string)
    requires name == "&" + Label(p) + "="
    ensures [AMP] + Name(p) + [EQUALS] == Ascii(name)
  {
    hide Label;
    assert |name| == |Label(p)| + 2;
  }

  lemma OneText(p: Param, v: Text, name: string)
    requires name == "&" + Label(p) + "="
    ensures Tail(One(p, v)) == Ascii(name) + v
  {
    hide Label, Ascii, Tail;
    TailOne(p, v);
    NameText(p, name);
  }

  lemma SomeText(p: Param, v: Option<Text>, name: string)
    requires name == "&" + Label(p) + "="
    ensures Tail(IfSome(p, v)) == Shown(name, EncodedText(v))
  {
    hide Label, Ascii, Encode, One;
    if v.Some? {
      OneText(p, Encode(v.value), name);
    }
  }

  lemma LimitText(c: PcapConfig)
    ensures Tail(LimitParams(c)) == Ascii("&snaplen=") + Decimal(c.snaplen)
      + (Ascii("&promisc=") + Flag(c.promiscuous)) + (Ascii("&timeout_ms=") + Decimal(c.timeoutMs))
  {
    hide Ascii, Tail, Decimal, Flag, One;
    var a, b, d := One(Snaplen, Decimal(c.snaplen)), One(Promisc, Flag(c.promiscuous)),
                   One(TimeoutMs, Decimal(c.timeoutMs));
    TailConcat(a + b, d);
    TailConcat(a, b);
    OneText(Snaplen, Decimal(c.snaplen), "&snaplen=");
    OneText(Promisc, Flag(c.promiscuous), "&promisc=");
    OneText(TimeoutMs, Decimal(c.timeoutMs), "&timeout_ms=");
  }

  lemma ModeText(c: PcapConfig)
    ensures Tail(ModeParams(c)) == Ascii("&immediate=") + Flag(c.immediate)
      + (Ascii("&save=") + SaveToken(c.saveMode)) + (Ascii("&publish=") + PublishToken(c.publishMode))
  {
    hide Ascii, Tail, Flag, One, SaveToken, PublishToken;
    var a, b, d := One(Immediate, Flag(c.immediate)), One(Save, SaveToken(c.saveMode)),
                   One(Publish, PublishToken(c.publishMode));
    TailConcat(a + b, d);
    TailConcat(a, b);
    OneText(Immediate, Flag(c.immediate), "&immediate=");
    OneText(Save, SaveToken(c.saveMode), "&save=");
    OneText(Publish, PublishToken(c.publishMode), "&publish=");
  }

  function BufferText(v: Option<u32>): Option<Text> {
    if v.None? then None else Some(Decimal(v.value))
  }

  lemma ParamsText(c: PcapConfig)
    ensures Tail(PcapParams(c)) ==
      Tail(LimitParams(c)) + Tail(ModeParams(c)) + Shown("&display_name=", EncodedText(c.displayName))
      + Shown("&buffer_bytes=", BufferText(c.bufferBytes)) + Shown("&filter=", EncodedText(c.filter))
      + Shown("&pcapng_path=", EncodedText(Displayed(c.pcapngPath)))
  {
    hide Ascii, Tail, LimitParams, ModeParams, IfSome, BufferParam, Displayed, EncodedText, Shown;
    var limits, modes, display, buffer, filter, path :=
      LimitParams(c), ModeParams(c), IfSome(DisplayName, c.displayName), BufferParam(c.bufferBytes),
      IfSome(Filter, c.filter), IfSome(PcapngPath, Displayed(c.pcapngPath));
    TailConcat(limits + modes + display + buffer + filter, path);
    TailConcat(limits + modes + display + buffer, filter);
    TailConcat(limits + modes + display, buffer);
    TailConcat(limits + modes, display);
    TailConcat(limits, modes);
    SomeText(DisplayName, c.displayName, "&display_name=");
    BufferShown(c.bufferBytes);
    SomeText(Filter, c.filter, "&filter=");
    SomeText(PcapngPath, Displayed(c.pcapngPath), "&pcapng_path=");
  }

  lemma BufferShown(v: Option<u32>)
    ensures Tail(BufferParam(v)) == Shown("&buffer_bytes=", BufferText(v))
  {
    hide Ascii, Decimal, One;
    if v.Some? {
      OneText(BufferBytes, Decimal(v.value), "&buffer_bytes=");
    }
  }

  /** The query of a capture URI, written out with an ampersand before every parameter. */
  function CaptureQuery(c: PcapConfig): Text {
    Ascii("&snaplen=") + Decimal(c.snaplen) + (Ascii("&promisc=") + Ascii(if c.promiscuous then "1" else "0"))
    + (Ascii("&timeout_ms=") + Decimal(c.timeoutMs))
    + (Ascii("&immediate=") + Ascii(if c.immediate then "1" else "0") + (Ascii("&save=") + Ascii(SaveLabel(c.saveMode)))
       + (Ascii("&publish=") + Ascii(PublishLabel(c.publishMode))))
    + Shown("&display_name=", EncodedText(c.displayName)) + Shown("&buffer_bytes=", BufferText(c.bufferBytes))
    + Shown("&filter=", EncodedText(c.filter)) + Shown("&pcapng_path=", EncodedText(Displayed(c.pcapngPath)))
  }

  lemma CaptureQueryIs(c: PcapConfig)
    ensures Tail(PcapParams(c)) == CaptureQuery(c)
  {
    hide Ascii, Tail, PcapParams, Decimal, Displayed, EncodedText, Shown, BufferText, LimitParams, ModeParams;
    ParamsText(c);
    LimitText(c);
    ModeText(c);
  }

  /** The text of a capture URI. */
  lemma CaptureText(c: PcapConfig)
    requires IsText(c)
    ensures Ascii("&") <= CaptureQuery(c)
    ensures Render(Capture(c)) == Ascii("pcap://") + Encode(c.interface) + Ascii("?") + CaptureQuery(c)[1..]
  {
    hide Ascii, Tail, Encode, Join, Pieces, PcapParams, CaptureQuery, Render, IsText;
    PcapText(c);
    PcapSafe(c);
    JoinTail(PcapParams(c));
    CaptureQueryIs(c);
    QueryStart();
  }

  lemma QueryStart()
    ensures Ascii("pcap://") == Ascii("pcap") + SCHEME_END && Ascii("?") == [QUESTION] && Ascii("&") == [AMP]
  {
  }

  // ---- The other kinds ----

  lemma RemoteDispatch(body: Text, q: Query)
    ensures ParseKind(Ascii("remote"), body, q) == Ok(Remote(DecodeText(body)))
  {
    hide DecodeText, ParsePcap, ParseSerial, ParseArgv;
    assert |Ascii("remote")| == 6 && |Ascii("serial")| == 6 && Ascii("remote")[0] == 0x72 && Ascii("serial")[0] == 0x73;
  }

  /** Every URL, whatever characters it holds, survives the round trip: all that is asked of it is that it is text. */
  lemma RemoteRoundTripIff(url: Text)
    ensures Parse(Render(Remote(url))) == Ok(Remote(url)) <==> IsUtf8(url)
  {
    hide Encode, Ascii, Safe, SplitScheme, EscapeSpaces, SplitOnce, ParseKind, DecodeText;
    EncodeSafe(url);
    SafeWithout(Encode(url), SPACE);
    SafeWithout(Encode(url), QUESTION);
    SchemeWord("remote");
    NoSpaces(RenderRaw(Remote(url)));
    SchemeAt(Ascii("remote"), Encode(url));
    RemoteDispatch(Encode(url), map[]);
    RoundTripIff(url);
  }

  /** The kinds that are one bare string: TCP and UDP addresses and mock tags. */
  datatype Plain = TcpKind | UdpKind | MockKind

  function PlainSpec(kind: Plain, s: Text): ChannelSpec {
    match kind case TcpKind => Tcp(s) case UdpKind => Udp(s) case MockKind => Mock(s)
  }

  function PlainScheme(kind: Plain): string {
    match kind case TcpKind => "tcp" case UdpKind => "udp" case MockKind => "mock"
  }

  lemma PlainDispatch(kind: Plain, body: Text, q: Query)
    ensures ParseKind(Ascii(PlainScheme(kind)), body, q) == Ok(PlainSpec(kind, body))
  {
    hide DecodeText, ParsePcap, ParseSerial, ParseArgv;
    assert Ascii("tcp")[0] == 0x74 && Ascii("udp")[0] == 0x75 && Ascii("mock")[0] == 0x6d;
    assert Ascii("file")[0] == 0x66 && Ascii("pcap")[0] == 0x70 && Ascii("pipe")[0] == 0x70;
    assert |Ascii("tcp")| == 3 && |Ascii("udp")| == 3 && |Ascii("mock")| == 4;
  }

  lemma {:induction false} EscapedWithout(s: Text, b: byte)
    requires b !in s && b != PERCENT && b != 0x32 && b != 0x30
    ensures b !in EscapeSpaces(s)
  {
    if s != [] {
      EscapedWithout(s[1..], b);
    }
  }

  lemma {:induction false} EscapeConcat(s: Text, t: Text)
    ensures EscapeSpaces(s + t) == EscapeSpaces(s) + EscapeSpaces(t)
  {
    if s == [] {
      assert s + t == t;
    } else {
      assert (s + t)[1..] == s[1..] + t;
      EscapeConcat(s[1..], t);
    }
  }

  lemma {:induction false} EscapeLonger(s: Text)
    ensures |EscapeSpaces(s)| >= |s| && (SPACE in s ==> |EscapeSpaces(s)| > |s|)
  {
    if s != [] {
      EscapeLonger(s[1..]);
    }
  }

  lemma PlainText(kind: Plain, s: Text)
    ensures SplitScheme(Render(PlainSpec(kind, s))) == Some((Ascii(PlainScheme(kind)), EscapeSpaces(s)))
  {
    hide Ascii, SplitScheme, EscapeSpaces;
    var scheme := Ascii(PlainScheme(kind));
    SchemeWord(PlainScheme(kind));
    EscapeConcat(scheme + SCHEME_END, s);
    NoSpaces(scheme + SCHEME_END);
    SchemeAt(scheme, EscapeSpaces(s));
  }

  /** Such a string is rendered as it stands, so it comes back exactly when it holds no space and no question mark. */
  lemma PlainRoundTripIff(kind: Plain, s: Text)
    ensures Parse(Render(PlainSpec(kind, s))) == Ok(PlainSpec(kind, s)) <==> ' ' as int !in s && '?' as int !in s
  {
    hide Render, Ascii, SplitScheme, EscapeSpaces, ParseKind, QueryOf, Split, PlainScheme;
    var text := EscapeSpaces(s);
    PlainText(kind, s);
    EscapeLonger(s);
    match SplitOnce(text, QUESTION)
    case None =>
      PlainDispatch(kind, text, map[]);
      PlainWhole(s);
    case Some((body, query)) =>
      if QueryOf(Split(query, AMP)).Ok? {
        PlainDispatch(kind, body, QueryOf(Split(query, AMP)).value);
      }
      if QUESTION !in s {
        EscapedWithout(s, QUESTION);
      }
  }

  lemma {:induction false} QuestionKept(s: Text)
    ensures QUESTION in s ==> QUESTION in EscapeSpaces(s)
  {
    if s != [] {
      QuestionKept(s[1..]);
    }
  }

  lemma PlainWhole(s: Text)
    ensures QUESTION !in EscapeSpaces(s) ==> QUESTION !in s
    ensures SPACE !in s ==> EscapeSpaces(s) == s
  {
    QuestionKept(s);
    if SPACE !in s {
      NoSpaces(s);
    }
  }

  // ---- Paths ----

  /** The kinds that are a path: files, followed or not, and named pipes. */
  datatype PathKind = FileKind(follow: bool) | PipeKind

  function PathSpec(kind: PathKind, path: Text): ChannelSpec {
    match kind case FileKind(follow) => File(path, follow) case PipeKind => Pipe(path)
  }

  function PathScheme(kind: PathKind): string {
    if kind.PipeKind? then "pipe" else "file"
  }

  function PathQuery(kind: PathKind): Text {
    FollowQuery(kind.FileKind? && kind.follow)
  }

  /** The query that marks a followed file, and the one of every other path. */
  function FollowMap(follow: bool): Query {
    if follow then map[Ascii("follow") := Ascii("1")] else map[]
  }

  lemma FollowParses()
    ensures QueryOf(Split(Ascii("follow") + [EQUALS] + Ascii("1"), AMP)) == Ok(FollowMap(true))
    ensures QUESTION !in Ascii("follow") + [EQUALS] + Ascii("1") && SPACE !in FollowQuery(true)
  {
    hide DecodeText;
    var key, value := Ascii("follow"), Ascii("1");
    var piece := key + [EQUALS] + value;
    FollowWord();
    WordSafe("follow");
    assert value[0] == 0x31;
    assert AMP !in piece;
    assert Split(piece, AMP) == [piece] by {
      assert SplitOnce(piece, AMP).None?;
    }
    SplitOnceAt(key, EQUALS, value);
    DecodeTextPlain(value);
    var none: seq<Text> := [];
    assert [piece][..0] == none;
    assert QueryOf([piece]) == Ok(map[][key := value]);
  }

  lemma FollowWord()
    ensures IsWord("follow")
  {
  }

  /** Whatever the query, a path spec holds the body without its leading slashes. */
  lemma PathDispatch(kind: PathKind, body: Text, q: Query)
    ensures var r := ParseKind(Ascii(PathScheme(kind)), body, q);
      r.Ok? && if kind.PipeKind? then r.value == Pipe(TrimSlashes(body))
               else r.value.File? && r.value.path == TrimSlashes(body)
                    && r.value.follow == (Ascii("follow") in q && IsOn(q[Ascii("follow")]))
  {
    hide DecodeText, ParsePcap, ParseSerial, ParseArgv, TrimSlashes;
    assert Ascii("file")[0] == 0x66 && Ascii("pipe")[0] == 0x70 && Ascii("pcap")[0] == 0x70;
    assert Ascii("pipe")[1] == 0x69 && Ascii("pcap")[1] == 0x63;
    assert |Ascii("file")| == 4 && |Ascii("pipe")| == 4 && |Ascii("tcp")| == 3 && |Ascii("udp")| == 3;
    assert |Ascii("serial")| == 6 && |Ascii("process")| == 7;
  }

  lemma {:induction false} EscapedNoSpace(s: Text)
    ensures SPACE !in EscapeSpaces(s)
  {
    if s != [] {
      EscapedNoSpace(s[1..]);
      assert Ascii("%20") == [PERCENT, 0x32, 0x30];
    }
  }

  lemma EscapedFirst(s: Text)
    requires s == [] || s[0] != SLASH
    ensures EscapeSpaces(s) == [] || EscapeSpaces(s)[0] != SLASH
  {
    assert Ascii("%20")[0] == PERCENT;
  }

  lemma TrimOne(t: Text)
    requires t == [] || t[0] != SLASH
    ensures TrimSlashes([SLASH] + t) == t
  {
    assert ([SLASH] + t)[1..] == t;
  }

  lemma EscapedStart(s: Text)
    requires s == [] || s[0] != SLASH
    ensures TrimSlashes([SLASH] + EscapeSpaces(s)) == EscapeSpaces(s)
  {
    hide EscapeSpaces, TrimSlashes;
    EscapedFirst(s);
    TrimOne(EscapeSpaces(s));
  }

  lemma ParseWithout(text: Text, scheme: Text, body: Text)
    requires SplitScheme(text) == Some((scheme, body)) && QUESTION !in body
    ensures Parse(text) == ParseKind(scheme, body, map[])
  {
    hide SplitScheme, ParseKind, QueryOf, Split;
  }

  lemma ParseWith(text: Text, scheme: Text, body: Text, q: Text)
    requires SplitScheme(text) == Some((scheme, body + [QUESTION] + q)) && QUESTION !in body
    requires QueryOf(Split(q, AMP)).Ok?
    ensures Parse(text) == ParseKind(scheme, body, QueryOf(Split(q, AMP)).value)
  {
    hide SplitScheme, ParseKind, QueryOf, Split, SplitOnce;
    SplitOnceAt(body, QUESTION, q);
  }

  /** The path as it comes back is the path exactly when there was nothing to escape and nothing to trim. */
  lemma EscapedIsPath(path: Text)
    ensures EscapeSpaces(TrimSlashes(path)) == path <==> SPACE !in path && (path == [] || path[0] != SLASH)
  {
    hide EscapeSpaces;
    var t := TrimSlashes(path);
    EscapedNoSpace(t);
    if SPACE !in path {
      TrimKeepsNone(path, SPACE);
      NoSpaces(t);
    }
  }

  lemma PathText(kind: PathKind, path: Text)
    ensures SplitScheme(Render(PathSpec(kind, path))) ==
      Some((Ascii(PathScheme(kind)), [SLASH] + EscapeSpaces(TrimSlashes(path)) + PathQuery(kind)))
  {
    hide Ascii, SplitScheme, EscapeSpaces, TrimSlashes, FollowQuery;
    var scheme, t, q := Ascii(PathScheme(kind)), TrimSlashes(path), PathQuery(kind);
    var head := scheme + SCHEME_END + [SLASH];
    PathWord(kind);
    SchemeWord(PathScheme(kind));
    FollowPlain(kind.FileKind? && kind.follow);
    NoSpaces(head);
    NoSpaces(q);
    EscapeConcat(head, t);
    EscapeConcat(head + t, q);
    assert RenderRaw(PathSpec(kind, path)) == head + t + q by {
      PipePlain(head + t);
    }
    assert head + EscapeSpaces(t) + q == scheme + SCHEME_END + ([SLASH] + EscapeSpaces(t) + q);
    SchemeAt(scheme, [SLASH] + EscapeSpaces(t) + q);
  }

  lemma PathWord(kind: PathKind)
    ensures IsWord(PathScheme(kind))
  {
  }

  lemma FollowPlain(follow: bool)
    ensures SPACE !in FollowQuery(follow)
  {
    FollowParses();
  }

  lemma PipePlain(s: Text)
    ensures s + FollowQuery(false) == s
  {
  }

  /** A path comes back exactly when it holds no space and no question mark and does not start with a slash. */
  lemma PathRoundTripIff(kind: PathKind, path: Text)
    ensures Parse(Render(PathSpec(kind, path))) == Ok(PathSpec(kind, path)) <==>
      ' ' as int !in path && '?' as int !in path && (path == [] || path[0] != '/' as int)
  {
    hide Render, Ascii, SplitScheme, EscapeSpaces, TrimSlashes, ParseKind, QueryOf, Split, FollowQuery;
    hide PathScheme, IsOn;
    PathText(kind, path);
    EscapedIsPath(path);
    EscapedStart(TrimSlashes(path));
    if QUESTION in path {
      QuestionLost(kind, path);
    } else {
      PathParses(kind, path);
    }
  }

  /** Without a question mark, the whole path is read back. */
  lemma PathParses(kind: PathKind, path: Text)
    requires QUESTION !in path
    ensures Parse(Render(PathSpec(kind, path))) == Ok(PathSpec(kind, EscapeSpaces(TrimSlashes(path))))
  {
    hide Render, Ascii, SplitScheme, EscapeSpaces, TrimSlashes, ParseKind, IsOn, Parse, FollowQuery;
    var t := TrimSlashes(path);
    var body := [SLASH] + EscapeSpaces(t);
    PathText(kind, path);
    EscapedStart(t);
    TrimKeepsNone(path, QUESTION);
    EscapedWithout(t, QUESTION);
    if kind.FileKind? && kind.follow {
      FollowedParses(Render(PathSpec(kind, path)), body);
    } else {
      PipePlain(body);
      ParseWithout(Render(PathSpec(kind, path)), Ascii(PathScheme(kind)), body);
      PathDispatch(kind, body, map[]);
    }
  }

  lemma FollowedParses(text: Text, body: Text)
    requires SplitScheme(text) == Some((Ascii("file"), body + FollowQuery(true))) && QUESTION !in body
    ensures Parse(text) == Ok(File(TrimSlashes(body), true))
  {
    hide Ascii, SplitScheme, TrimSlashes, ParseKind, QueryOf, Split, IsOn, Parse;
    var q := Ascii("follow") + [EQUALS] + Ascii("1");
    assert body + FollowQuery(true) == body + [QUESTION] + q;
    FollowParses();
    ParseWith(text, Ascii("file"), body, q);
    PathDispatch(FileKind(true), body, FollowMap(true));
    FollowIsOn();
  }

  lemma FollowIsOn()
    ensures IsOn(Ascii("1"))
  {
  }

  /** A question mark ends the path early. */
  lemma QuestionLost(kind: PathKind, path: Text)
    requires QUESTION in path
    ensures Parse(Render(PathSpec(kind, path))) != Ok(PathSpec(kind, path))
  {
    hide Render, Ascii, SplitScheme, EscapeSpaces, TrimSlashes, ParseKind, QueryOf, Split, FollowQuery;
    hide PathScheme, IsOn;
    PathText(kind, path);
    var rest := [SLASH] + EscapeSpaces(TrimSlashes(path)) + PathQuery(kind);
    TrimKeepsQuestion(path);
    QuestionKept(TrimSlashes(path));
    match SplitOnce(rest, QUESTION)
    case Some((body, query)) =>
      if QueryOf(Split(query, AMP)).Ok? {
        PathDispatch(kind, body, QueryOf(Split(query, AMP)).value);
        TrimKeepsNone(body, QUESTION);
      }
  }

  lemma {:induction false} TrimKeepsNone(s: Text, b: byte)
    requires b !in s
    ensures b !in TrimSlashes(s)
  {
    if s != [] && s[0] == SLASH {
      TrimKeepsNone(s[1..], b);
    }
  }

  lemma {:induction false} TrimKeepsQuestion(s: Text)
    ensures QUESTION in s ==> QUESTION in TrimSlashes(s)
  {
    if s != [] && s[0] == SLASH {
      TrimKeepsQuestion(s[1..]);
    }
  }
}
