/** The settings form of the admin pages (src/admin.rs). */
module AdminSettings {
  import opened Common
  import opened Text
  import opened Admin

  type u64 = n: int | 0 <= n <= U64_MAX

  datatype HttpMode = Auto | Http1 | Http2

  /** Paths are their text. */
  datatype Settings = Settings(
    listenAddr: string, frontendDomain: string, backendUrl: string,
    tlsCertPath: string, tlsKeyPath: string, sqlitePath: string,
    caBundlePath: Option<string>, upstreamSniOverride: Option<string>, httpMode: HttpMode,
    flushRows: u64, flushIntervalMs: u64, maxInflightEvents: u64, bodyMaxBytes: u64,
    connectTimeoutMs: u64, requestTimeoutMs: u64, idlePoolTimeoutMs: u64, gracefulShutdownTimeoutMs: u64,
    trustProxyHeaders: bool, emitKeylog: bool,
    headerAllowlist: seq<string>, headerDenylist: seq<string>)

  datatype SettingKey =
    | ListenAddr | FrontendDomain | BackendUrl | TlsCertPath | TlsKeyPath | SqlitePath | CaBundlePath
    | UpstreamSniOverride | HttpModeKey | FlushRows | FlushIntervalMs | MaxInflightEvents | BodyMaxBytes
    | ConnectTimeoutMs | RequestTimeoutMs | IdlePoolTimeoutMs | GracefulShutdownTimeoutMs
    | TrustProxyHeaders | EmitKeylog | HeaderAllowlist | HeaderDenylist

  // ---------------------------------------------------------------- field names

  /** The name the page gives a field. */
  function PageName(k: SettingKey): string {
    match k
    case ListenAddr => "listen_addr"
    case FrontendDomain => "frontend_domain"
    case BackendUrl => "backend_url"
    case SqlitePath => "sqlite_path"
    case TlsCertPath => "tls_cert_path"
    case TlsKeyPath => "tls_key_path"
    case CaBundlePath => "ca_bundle_path"
    case UpstreamSniOverride => "upstream_sni_override"
    case HttpModeKey => "http_mode"
    case FlushRows => "flush_rows"
    case FlushIntervalMs => "flush_interval_ms"
    case MaxInflightEvents => "max_inflight_events"
    case BodyMaxBytes => "body_max_bytes"
    case ConnectTimeoutMs => "connect_timeout_ms"
    case RequestTimeoutMs => "request_timeout_ms"
    case IdlePoolTimeoutMs => "idle_pool_timeout_ms"
    case GracefulShutdownTimeoutMs => "graceful_shutdown_timeout_ms"
    case HeaderAllowlist => "header_allowlist"
    case HeaderDenylist => "header_denylist"
    case TrustProxyHeaders => "trust_proxy_headers"
    case EmitKeylog => "emit_keylog"
  }

  /** The name under which `runtime_from_form` looks a field up. */
  function ParsedName(k: SettingKey): string {
    match k
    case ListenAddr => "listen_addr"
    case FrontendDomain => "frontend_domain"
    case BackendUrl => "backend_url"
    case TlsCertPath => "tls_cert_path"
    case TlsKeyPath => "tls_key_path"
    case SqlitePath => "sqlite_path"
    case CaBundlePath => "ca_bundle_path"
    case UpstreamSniOverride => "upstream_sni_override"
    case HttpModeKey => "http_mode"
    case FlushRows => "flush_rows"
    case FlushIntervalMs => "flush_interval_ms"
    case MaxInflightEvents => "max_inflight_events"
    case BodyMaxBytes => "body_max_bytes"
    case ConnectTimeoutMs => "connect_timeout_ms"
    case RequestTimeoutMs => "request_timeout_ms"
    case IdlePoolTimeoutMs => "idle_pool_timeout_ms"
    case GracefulShutdownTimeoutMs => "graceful_shutdown_timeout_ms"
    case TrustProxyHeaders => "trust_proxy_headers"
    case EmitKeylog => "emit_keylog"
    case HeaderAllowlist => "header_allowlist"
    case HeaderDenylist => "header_denylist"
  }

  /** Length and first character tell the names apart. */
  datatype Shape = Shape(length: nat, first: char)

  function NameShape(k: SettingKey): Shape {
    match k
    case ListenAddr => Shape(11, 'l')
    case FrontendDomain => Shape(15, 'f')
    case BackendUrl => Shape(11, 'b')
    case SqlitePath => Shape(11, 's')
    case TlsCertPath => Shape(13, 't')
    case TlsKeyPath => Shape(12, 't')
    case CaBundlePath => Shape(14, 'c')
    case UpstreamSniOverride => Shape(21, 'u')
    case HttpModeKey => Shape(9, 'h')
    case FlushRows => Shape(10, 'f')
    case FlushIntervalMs => Shape(17, 'f')
    case MaxInflightEvents => Shape(19, 'm')
    case BodyMaxBytes => Shape(14, 'b')
    case ConnectTimeoutMs => Shape(18, 'c')
    case RequestTimeoutMs => Shape(18, 'r')
    case IdlePoolTimeoutMs => Shape(20, 'i')
    case GracefulShutdownTimeoutMs => Shape(28, 'g')
    case HeaderAllowlist => Shape(16, 'h')
    case HeaderDenylist => Shape(15, 'h')
    case TrustProxyHeaders => Shape(19, 't')
    case EmitKeylog => Shape(11, 'e')
  }

  predicate HasShape(name: string, shape: Shape) { |name| == shape.length > 0 && name[0] == shape.first }

  lemma NameHasShape(k: SettingKey)
    ensures HasShape(PageName(k), NameShape(k))
  {
  }

  /** No two fields of the page share a name. */
  lemma PageNameInjective(a: SettingKey, b: SettingKey)
    requires PageName(a) == PageName(b)
    ensures a == b
  {
    NameHasShape(a);
    NameHasShape(b);
    ShapeInjective(a, b);
  }

  lemma ShapeInjective(a: SettingKey, b: SettingKey)
    requires NameShape(a) == NameShape(b)
    ensures a == b
  {
  }

  /** Every field is looked up under the name the page gives it. */
  lemma NamesAgree(k: SettingKey)
    ensures ParsedName(k) == PageName(k)
  {
  }

  // ---------------------------------------------------------------- codecs

  /** How a kind of field is shown (`None`: nothing is sent) and how what was sent is read, given a fallback. */
  datatype Codec<!T> = Codec(show: T -> Option<string>, read: (Option<string>, T) -> T)

  predicate Survives<T(==)>(codec: Codec<T>, value: T, fallback: T) { codec.read(codec.show(value), fallback) == value }

  predicate Blank(s: string) { Trim(s) == "" }

  function ReadText(sent: Option<string>, fallback: string): string { if sent.Some? then sent.value else fallback }

  function ReadPath(sent: Option<string>, fallback: string): string {
    if sent.Some? && !Blank(sent.value) then sent.value else fallback
  }

  function OptionalText(value: Option<string>): string { if value.Some? then value.value else "" }

  function ReadOptional(sent: Option<string>, fallback: Option<string>): Option<string> {
    match sent
    case None => fallback
    case Some(value) => if Blank(value) then None else Some(value)
  }

  function HttpModeValue(mode: HttpMode): string {
    match mode
    case Auto => "auto"
    case Http1 => "http1"
    case Http2 => "http2"
  }

  function ReadHttpMode(sent: Option<string>, fallback: HttpMode): HttpMode {
    if sent == Some("http1") then Http1
    else if sent == Some("http2") then Http2
    else if sent == Some("auto") then Auto
    else fallback
  }

  function ReadNumber(sent: Option<string>, fallback: u64): u64 {
    match sent
    case None => fallback
    case Some(text) => if ParseU64(text).Some? then ParseU64(text).value else fallback
  }

  function ReadList(sent: Option<string>, fallback: seq<string>): seq<string> {
    match sent
    case None => fallback
    case Some(raw) => CommaList(raw)
  }

  function TextCodec(): Codec<string> { Codec(s => Some(s), ReadText) }

  function PathCodec(): Codec<string> { Codec(s => Some(s), ReadPath) }

  function OptionalCodec(): Codec<Option<string>> { Codec(v => Some(OptionalText(v)), ReadOptional) }

  function HttpModeCodec(): Codec<HttpMode> { Codec(mode => Some(HttpModeValue(mode)), ReadHttpMode) }

  function NumberCodec(): Codec<u64> { Codec((n: u64) => Some(Decimal(n)), ReadNumber) }

  /** A checked box is sent, an unchecked one is not. */
  function CheckboxCodec(): Codec<bool> {
    Codec(checked => if checked then Some("true") else None, (sent: Option<string>, fallback) => sent.Some?)
  }

  function ListCodec(): Codec<seq<string>> { Codec(entries => Some(Join(entries, ",")), ReadList) }

  // ---------------------------------------------------------------- the page and its submission

  /** Which codec serves which kind of field. */
  datatype Codecs = Codecs(
    text: Codec<string>, path: Codec<string>, optional: Codec<Option<string>>, mode: Codec<HttpMode>,
    number: Codec<u64>, box: Codec<bool>, list: Codec<seq<string>>)

  function FormCodecs(): Codecs {
    Codecs(TextCodec(), PathCodec(), OptionalCodec(), HttpModeCodec(), NumberCodec(), CheckboxCodec(), ListCodec())
  }

  function Emits(c: Codecs, s: Settings, k: SettingKey): Option<string> {
    match k
    case ListenAddr => c.text.show(s.listenAddr)
    case FrontendDomain => c.text.show(s.frontendDomain)
    case BackendUrl => c.text.show(s.backendUrl)
    case TlsCertPath => c.path.show(s.tlsCertPath)
    case TlsKeyPath => c.path.show(s.tlsKeyPath)
    case SqlitePath => c.path.show(s.sqlitePath)
    case CaBundlePath => c.optional.show(s.caBundlePath)
    case UpstreamSniOverride => c.optional.show(s.upstreamSniOverride)
    case HttpModeKey => c.mode.show(s.httpMode)
    case FlushRows => c.number.show(s.flushRows)
    case FlushIntervalMs => c.number.show(s.flushIntervalMs)
    case MaxInflightEvents => c.number.show(s.maxInflightEvents)
    case BodyMaxBytes => c.number.show(s.bodyMaxBytes)
    case ConnectTimeoutMs => c.number.show(s.connectTimeoutMs)
    case RequestTimeoutMs => c.number.show(s.requestTimeoutMs)
    case IdlePoolTimeoutMs => c.number.show(s.idlePoolTimeoutMs)
    case GracefulShutdownTimeoutMs => c.number.show(s.gracefulShutdownTimeoutMs)
    case TrustProxyHeaders => c.box.show(s.trustProxyHeaders)
    case EmitKeylog => c.box.show(s.emitKeylog)
    case HeaderAllowlist => c.list.show(s.headerAllowlist)
    case HeaderDenylist => c.list.show(s.headerDenylist)
  }

  /** The value of each field that was sent. */
  type Form = map<SettingKey, string>

  function Sent(values: Form, k: SettingKey): Option<string> { if k in values then Some(values[k]) else None }

  function Rendered(c: Codecs, s: Settings): (values: Form)
    ensures forall k: SettingKey :: Sent(values, k) == Emits(c, s, k)
  {
    map k: SettingKey | Emits(c, s, k).Some? :: Emits(c, s, k).value
  }

  function FromForm(c: Codecs, values: Form, fallback: Settings): Settings {
    Settings(
      c.text.read(Sent(values, ListenAddr), fallback.listenAddr),
      c.text.read(Sent(values, FrontendDomain), fallback.frontendDomain),
      c.text.read(Sent(values, BackendUrl), fallback.backendUrl),
      c.path.read(Sent(values, TlsCertPath), fallback.tlsCertPath),
      c.path.read(Sent(values, TlsKeyPath), fallback.tlsKeyPath),
      c.path.read(Sent(values, SqlitePath), fallback.sqlitePath),
      c.optional.read(Sent(values, CaBundlePath), fallback.caBundlePath),
      c.optional.read(Sent(values, UpstreamSniOverride), fallback.upstreamSniOverride),
      c.mode.read(Sent(values, HttpModeKey), fallback.httpMode),
      c.number.read(Sent(values, FlushRows), fallback.flushRows),
      c.number.read(Sent(values, FlushIntervalMs), fallback.flushIntervalMs),
      c.number.read(Sent(values, MaxInflightEvents), fallback.maxInflightEvents),
      c.number.read(Sent(values, BodyMaxBytes), fallback.bodyMaxBytes),
      c.number.read(Sent(values, ConnectTimeoutMs), fallback.connectTimeoutMs),
      c.number.read(Sent(values, RequestTimeoutMs), fallback.requestTimeoutMs),
      c.number.read(Sent(values, IdlePoolTimeoutMs), fallback.idlePoolTimeoutMs),
      c.number.read(Sent(values, GracefulShutdownTimeoutMs), fallback.gracefulShutdownTimeoutMs),
      c.box.read(Sent(values, TrustProxyHeaders), fallback.trustProxyHeaders),
      c.box.read(Sent(values, EmitKeylog), fallback.emitKeylog),
      c.list.read(Sent(values, HeaderAllowlist), fallback.headerAllowlist),
      c.list.read(Sent(values, HeaderDenylist), fallback.headerDenylist))
  }

  function ReadForm(values: map<string, string>): Form {
    map k: SettingKey | ParsedName(k) in values :: values[ParsedName(k)]
  }

  /** `runtime_from_form`. */
  function RuntimeFromForm(values: map<string, string>, fallback: Settings): Settings {
    FromForm(FormCodecs(), ReadForm(values), fallback)
  }

  /** A submission of the page for settings `s`: its fields have their values; there may be others, such as the
      button pressed. */
  ghost predicate SubmitsSettings(values: map<string, string>, s: Settings) {
    forall k: SettingKey :: SubmitsField(values, PageName(k), Emits(FormCodecs(), s, k))
  }

  predicate SubmitsField(values: map<string, string>, name: string, value: Option<string>) {
    if name in values then value == Some(values[name]) else value.None?
  }

  lemma PageNamesInjective()
    ensures forall a: SettingKey, b: SettingKey :: PageName(a) == PageName(b) ==> a == b
  {
    forall a: SettingKey, b: SettingKey | PageName(a) == PageName(b) ensures a == b { PageNameInjective(a, b); }
  }

  ghost function Renamed(form: Form, name: SettingKey -> string): (values: map<string, string>)
    requires forall a: SettingKey, b: SettingKey :: name(a) == name(b) ==> a == b
    ensures forall k: SettingKey :: SubmitsField(values, name(k), Sent(form, k))
  {
    var values := map k: SettingKey | k in form :: name(k) := form[k];
    assert forall k: SettingKey :: name(k) in values <==> k in form;
    values
  }

  /** The page as rendered: one field per name, none hiding another. */
  ghost function SettingsPage(s: Settings): (values: map<string, string>)
    ensures SubmitsSettings(values, s)
  {
    PageNamesInjective();
    var form := Rendered(FormCodecs(), s);
    assert forall k: SettingKey :: Sent(form, k) == Emits(FormCodecs(), s, k);
    Renamed(form, PageName)
  }

  lemma ReadBack(values: map<string, string>, s: Settings)
    requires SubmitsSettings(values, s)
    ensures ReadForm(values) == Rendered(FormCodecs(), s)
  {
    var form, rendered := ReadForm(values), Rendered(FormCodecs(), s);
    forall k: SettingKey ensures Sent(form, k) == Sent(rendered, k) {
      NamesAgree(k);
      assert SubmitsField(values, PageName(k), Emits(FormCodecs(), s, k));
    }
    SameForm(form, rendered);
  }

  lemma SameForm(a: Form, b: Form)
    requires forall k: SettingKey :: Sent(a, k) == Sent(b, k)
    ensures a == b
  {
    forall k: SettingKey ensures k in a <==> k in b { assert Sent(a, k) == Sent(b, k); }
    forall k: SettingKey | k in a ensures a[k] == b[k] { assert Sent(a, k) == Sent(b, k); }
  }

  // ---------------------------------------------------------------- round trip

  predicate PathSurvives(path: string, fallback: string) { !Blank(path) || path == fallback }

  predicate OptionalSurvives(value: Option<string>) { value.Some? ==> !Blank(value.value) }

  /** The settings the form can carry. */
  predicate Representable(s: Settings, fallback: Settings) {
    && PathSurvives(s.tlsCertPath, fallback.tlsCertPath)
    && PathSurvives(s.tlsKeyPath, fallback.tlsKeyPath)
    && PathSurvives(s.sqlitePath, fallback.sqlitePath)
    && OptionalSurvives(s.caBundlePath) && OptionalSurvives(s.upstreamSniOverride)
    && AllPlain(s.headerAllowlist) && AllPlain(s.headerDenylist)
  }

  /** What each codec carries. */
  ghost predicate Carries(c: Codecs) {
    && (forall s, fallback :: Survives(c.text, s, fallback))
    && (forall s, fallback :: Survives(c.path, s, fallback) <==> PathSurvives(s, fallback))
    && (forall v, fallback :: Survives(c.optional, v, fallback) <==> OptionalSurvives(v))
    && (forall mode, fallback :: Survives(c.mode, mode, fallback))
    && (forall n, fallback :: Survives(c.number, n, fallback))
    && (forall checked, fallback :: Survives(c.box, checked, fallback))
    && (forall entries, fallback :: Survives(c.list, entries, fallback) <==> AllPlain(entries))
  }

  predicate TextsAndPathsSurvive(c: Codecs, s: Settings, fallback: Settings) {
    && Survives(c.text, s.listenAddr, fallback.listenAddr)
    && Survives(c.text, s.frontendDomain, fallback.frontendDomain)
    && Survives(c.text, s.backendUrl, fallback.backendUrl)
    && Survives(c.path, s.tlsCertPath, fallback.tlsCertPath)
    && Survives(c.path, s.tlsKeyPath, fallback.tlsKeyPath)
    && Survives(c.path, s.sqlitePath, fallback.sqlitePath)
    && Survives(c.optional, s.caBundlePath, fallback.caBundlePath)
    && Survives(c.optional, s.upstreamSniOverride, fallback.upstreamSniOverride)
  }

  predicate NumbersSurvive(c: Codecs, s: Settings, fallback: Settings) {
    && Survives(c.number, s.flushRows, fallback.flushRows)
    && Survives(c.number, s.flushIntervalMs, fallback.flushIntervalMs)
    && Survives(c.number, s.maxInflightEvents, fallback.maxInflightEvents)
    && Survives(c.number, s.bodyMaxBytes, fallback.bodyMaxBytes)
    && Survives(c.number, s.connectTimeoutMs, fallback.connectTimeoutMs)
    && Survives(c.number, s.requestTimeoutMs, fallback.requestTimeoutMs)
    && Survives(c.number, s.idlePoolTimeoutMs, fallback.idlePoolTimeoutMs)
    && Survives(c.number, s.gracefulShutdownTimeoutMs, fallback.gracefulShutdownTimeoutMs)
  }

  predicate ChoicesSurvive(c: Codecs, s: Settings, fallback: Settings) {
    && Survives(c.mode, s.httpMode, fallback.httpMode)
    && Survives(c.box, s.trustProxyHeaders, fallback.trustProxyHeaders)
    && Survives(c.box, s.emitKeylog, fallback.emitKeylog)
    && Survives(c.list, s.headerAllowlist, fallback.headerAllowlist)
    && Survives(c.list, s.headerDenylist, fallback.headerDenylist)
  }

  predicate SameTextsAndPaths(t: Settings, s: Settings) {
    && t.listenAddr == s.listenAddr && t.frontendDomain == s.frontendDomain && t.backendUrl == s.backendUrl
    && t.tlsCertPath == s.tlsCertPath && t.tlsKeyPath == s.tlsKeyPath && t.sqlitePath == s.sqlitePath
    && t.caBundlePath == s.caBundlePath && t.upstreamSniOverride == s.upstreamSniOverride
  }

  predicate SameNumbers(t: Settings, s: Settings) {
    && t.flushRows == s.flushRows && t.flushIntervalMs == s.flushIntervalMs
    && t.maxInflightEvents == s.maxInflightEvents && t.bodyMaxBytes == s.bodyMaxBytes
    && t.connectTimeoutMs == s.connectTimeoutMs && t.requestTimeoutMs == s.requestTimeoutMs
    && t.idlePoolTimeoutMs == s.idlePoolTimeoutMs && t.gracefulShutdownTimeoutMs == s.gracefulShutdownTimeoutMs
  }

  predicate SameChoices(t: Settings, s: Settings) {
    && t.httpMode == s.httpMode && t.trustProxyHeaders == s.trustProxyHeaders && t.emitKeylog == s.emitKeylog
    && t.headerAllowlist == s.headerAllowlist && t.headerDenylist == s.headerDenylist
  }

  lemma SameSettings(t: Settings, s: Settings)
    ensures t == s <==> SameTextsAndPaths(t, s) && SameNumbers(t, s) && SameChoices(t, s)
  {
  }

  predicate TextsAndPathsShown(c: Codecs, values: Form, s: Settings) {
    && Sent(values, ListenAddr) == c.text.show(s.listenAddr)
    && Sent(values, FrontendDomain) == c.text.show(s.frontendDomain)
    && Sent(values, BackendUrl) == c.text.show(s.backendUrl)
    && Sent(values, TlsCertPath) == c.path.show(s.tlsCertPath)
    && Sent(values, TlsKeyPath) == c.path.show(s.tlsKeyPath)
    && Sent(values, SqlitePath) == c.path.show(s.sqlitePath)
    && Sent(values, CaBundlePath) == c.optional.show(s.caBundlePath)
    && Sent(values, UpstreamSniOverride) == c.optional.show(s.upstreamSniOverride)
  }

  lemma TextsAndPathsComeBack(c: Codecs, values: Form, s: Settings, fallback: Settings)
    requires TextsAndPathsShown(c, values, s)
    ensures SameTextsAndPaths(FromForm(c, values, fallback), s) <==> TextsAndPathsSurvive(c, s, fallback)
  {
  }

  predicate NumbersShown(c: Codecs, values: Form, s: Settings) {
    && Sent(values, FlushRows) == c.number.show(s.flushRows)
    && Sent(values, FlushIntervalMs) == c.number.show(s.flushIntervalMs)
    && Sent(values, MaxInflightEvents) == c.number.show(s.maxInflightEvents)
    && Sent(values, BodyMaxBytes) == c.number.show(s.bodyMaxBytes)
    && Sent(values, ConnectTimeoutMs) == c.number.show(s.connectTimeoutMs)
    && Sent(values, RequestTimeoutMs) == c.number.show(s.requestTimeoutMs)
    && Sent(values, IdlePoolTimeoutMs) == c.number.show(s.idlePoolTimeoutMs)
    && Sent(values, GracefulShutdownTimeoutMs) == c.number.show(s.gracefulShutdownTimeoutMs)
  }

  lemma NumbersComeBack(c: Codecs, values: Form, s: Settings, fallback: Settings)
    requires NumbersShown(c, values, s)
    ensures SameNumbers(FromForm(c, values, fallback), s) <==> NumbersSurvive(c, s, fallback)
  {
  }

  predicate ChoicesShown(c: Codecs, values: Form, s: Settings) {
    && Sent(values, HttpModeKey) == c.mode.show(s.httpMode)
    && Sent(values, TrustProxyHeaders) == c.box.show(s.trustProxyHeaders)
    && Sent(values, EmitKeylog) == c.box.show(s.emitKeylog)
    && Sent(values, HeaderAllowlist) == c.list.show(s.headerAllowlist)
    && Sent(values, HeaderDenylist) == c.list.show(s.headerDenylist)
  }

  lemma ChoicesComeBack(c: Codecs, values: Form, s: Settings, fallback: Settings)
    requires ChoicesShown(c, values, s)
    ensures SameChoices(FromForm(c, values, fallback), s) <==> ChoicesSurvive(c, s, fallback)
  {
  }

  lemma FieldByField(c: Codecs, t: Settings, s: Settings, fallback: Settings)
    requires Carries(c)
    requires SameTextsAndPaths(t, s) <==> TextsAndPathsSurvive(c, s, fallback)
    requires SameNumbers(t, s) <==> NumbersSurvive(c, s, fallback)
    requires SameChoices(t, s) <==> ChoicesSurvive(c, s, fallback)
    ensures t == s <==> Representable(s, fallback)
  {
    SameSettings(t, s);
  }

  lemma CarriedFields(c: Codecs, values: Form, s: Settings, fallback: Settings)
    requires Carries(c) && TextsAndPathsShown(c, values, s) && NumbersShown(c, values, s) && ChoicesShown(c, values, s)
    ensures FromForm(c, values, fallback) == s <==> Representable(s, fallback)
  {
    TextsAndPathsComeBack(c, values, s, fallback);
    NumbersComeBack(c, values, s, fallback);
    ChoicesComeBack(c, values, s, fallback);
    FieldByField(c, FromForm(c, values, fallback), s, fallback);
  }

  lemma TextsAndPathsAreShown(c: Codecs, values: Form, s: Settings)
    requires forall k: SettingKey :: Sent(values, k) == Emits(c, s, k)
    ensures TextsAndPathsShown(c, values, s)
  {
  }

  lemma NumbersAreShown(c: Codecs, values: Form, s: Settings)
    requires forall k: SettingKey :: Sent(values, k) == Emits(c, s, k)
    ensures NumbersShown(c, values, s)
  {
  }

  lemma ChoicesAreShown(c: Codecs, values: Form, s: Settings)
    requires forall k: SettingKey :: Sent(values, k) == Emits(c, s, k)
    ensures ChoicesShown(c, values, s)
  {
  }

  lemma RenderedCarries(c: Codecs, s: Settings, fallback: Settings)
    requires Carries(c)
    ensures FromForm(c, Rendered(c, s), fallback) == s <==> Representable(s, fallback)
  {
    var values := Rendered(c, s);
    TextsAndPathsAreShown(c, values, s);
    NumbersAreShown(c, values, s);
    ChoicesAreShown(c, values, s);
    CarriedFields(c, values, s, fallback);
  }

  lemma TextCodecsCarry()
    ensures forall s, fallback :: Survives(TextCodec(), s, fallback)
    ensures forall s, fallback :: Survives(PathCodec(), s, fallback) <==> PathSurvives(s, fallback)
  {
  }

  lemma OptionalCodecCarries(v: Option<string>, fallback: Option<string>)
    ensures Survives(OptionalCodec(), v, fallback) <==> OptionalSurvives(v)
  {
    assert Blank("");
  }

  lemma NumberCodecCarries(n: u64, fallback: u64)
    ensures Survives(NumberCodec(), n, fallback)
  {
    DecimalRoundTrip(n);
  }

  lemma CheckboxCodecCarries(checked: bool, fallback: bool)
    ensures Survives(CheckboxCodec(), checked, fallback)
  {
  }

  lemma ListCodecCarries(entries: seq<string>, fallback: seq<string>)
    ensures Survives(ListCodec(), entries, fallback) <==> AllPlain(entries)
  {
    CommaListRoundTrip(entries);
  }

  lemma HttpModeCodecCarries(mode: HttpMode, fallback: HttpMode)
    ensures Survives(HttpModeCodec(), mode, fallback)
  {
    HttpModeRoundTrip(mode, fallback);
  }

  lemma FormCodecsCarry()
    ensures Carries(FormCodecs())
  {
    TextCodecsCarry();
    forall v, fallback ensures Survives(OptionalCodec(), v, fallback) <==> OptionalSurvives(v) {
      OptionalCodecCarries(v, fallback);
    }
    forall mode, fallback ensures Survives(HttpModeCodec(), mode, fallback) { HttpModeCodecCarries(mode, fallback); }
    forall n, fallback ensures Survives(NumberCodec(), n, fallback) { NumberCodecCarries(n, fallback); }
    forall checked, fallback ensures Survives(CheckboxCodec(), checked, fallback) {
      CheckboxCodecCarries(checked, fallback);
    }
    forall entries, fallback ensures Survives(ListCodec(), entries, fallback) <==> AllPlain(entries) {
      ListCodecCarries(entries, fallback);
    }
  }

  lemma HttpModeRoundTrip(mode: HttpMode, fallback: HttpMode)
    ensures ReadHttpMode(Some(HttpModeValue(mode)), fallback) == mode
  {
    assert "http1"[4] != "http2"[4];
  }

  /** Parsing a submission of the page for settings gives them back exactly if they are representable: no blank path
      other than the fallback's, no blank optional text, only plain list entries. */
  lemma SettingsRoundTrip(values: map<string, string>, s: Settings, fallback: Settings)
    requires SubmitsSettings(values, s)
    ensures RuntimeFromForm(values, fallback) == s <==> Representable(s, fallback)
  {
    ReadBack(values, s);
    FormCodecsCarry();
    RenderedCarries(FormCodecs(), s, fallback);
  }

  // ---------------------------------------------------------------- what is not sent, or cannot be read

  /** What a form without its fields is read as: the fallback, with the boxes unchecked. */
  lemma EmptyForm(values: map<string, string>, fallback: Settings)
    requires forall k: SettingKey :: ParsedName(k) !in values
    ensures RuntimeFromForm(values, fallback) == fallback.(trustProxyHeaders := false, emitKeylog := false)
  {
    assert ReadForm(values) == map[];
    EmptyReads(FormCodecs(), fallback);
  }

  lemma EmptyReads(c: Codecs, fallback: Settings)
    requires c == FormCodecs()
    ensures FromForm(c, map[], fallback) == fallback.(trustProxyHeaders := false, emitKeylog := false)
  {
    assert forall k: SettingKey :: Sent(map[], k) == None;
  }

  /** A number that cannot be read leaves the fallback; one that can is its value. */
  lemma NumberIff(text: string, fallback: u64, n: u64)
    ensures ParseU64(text).None? ==> ReadNumber(Some(text), fallback) == fallback
    ensures Writes(text, "", n) || Writes(text, "+", n) ==> ReadNumber(Some(text), fallback) == n
  {
    ParseU64Iff(text, n);
  }

  /** A box that is sent is checked, whatever its value. */
  lemma SentBoxIsChecked(values: map<string, string>, fallback: Settings)
    ensures RuntimeFromForm(values, fallback).trustProxyHeaders <==> "trust_proxy_headers" in values
    ensures RuntimeFromForm(values, fallback).emitKeylog <==> "emit_keylog" in values
  {
    assert ParsedName(TrustProxyHeaders) == "trust_proxy_headers" && ParsedName(EmitKeylog) == "emit_keylog";
  }

  /** The names of the modes. */
  lemma ModeNames(fallback: HttpMode)
    ensures ReadHttpMode(Some("auto"), fallback) == Auto && HttpModeValue(Auto) == "auto"
    ensures ReadHttpMode(Some("http1"), fallback) == Http1 && HttpModeValue(Http1) == "http1"
    ensures ReadHttpMode(Some("http2"), fallback) == Http2 && HttpModeValue(Http2) == "http2"
  {
    assert "http1"[4] != "http2"[4];
  }

  /** So does a mode that is not known. */
  lemma UnknownMode(text: string, fallback: HttpMode)
    requires text != "auto" && text != "http1" && text != "http2"
    ensures ReadHttpMode(Some(text), fallback) == fallback
  {
  }
}
