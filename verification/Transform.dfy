/** Response transforms (src/transform.rs): what a rule list means, and the theorems about it. */
module Transform {
  import opened Common
  import opened Text
  import opened Headers

  // ---------------------------------------------------------------- rules

  datatype Matcher = UrlGlob(pattern: string) | ContentTypeGlob(pattern: string) | Always

  datatype Target = Everything | Body | AllHeaders | Header(name: HeaderName) | Cookies

  type Needle = s: string | s != "" witness "a"

  datatype Rule = Rule(matcher: Matcher, from: Needle, to: string, target: Target, stop: bool)

  datatype TransformError = NotText(name: HeaderName) | InvalidValue(name: HeaderName)

  // ---------------------------------------------------------------- compiling the configured rules

  datatype MatcherFile = UrlGlobFile(pattern: string) | ContentTypeGlobFile(pattern: string) | AnyMatcher

  datatype TargetFile = AnyTarget | BodyFile | AllHeadersFile | HeaderFile(name: string) | CookiesFile

  datatype RuleFile = RuleFile(matcher: MatcherFile, from: string, to: string, target: TargetFile, stop: bool)

  datatype CompileError = BadGlob(pattern: string) | EmptyFrom | NoHeaderName | BadHeaderName(name: string)

  function CompileMatcher(lib: Library, m: MatcherFile): Result<Matcher, CompileError> {
    match m
    case UrlGlobFile(p) => if lib.globCompiles(p) then Ok(UrlGlob(p)) else Err(BadGlob(p))
    case ContentTypeGlobFile(p) =>
      if lib.globCompiles(Lower(p)) then Ok(ContentTypeGlob(Lower(p))) else Err(BadGlob(p))
    case AnyMatcher => Ok(Always)
  }

  function CompileTarget(t: TargetFile): Result<Target, CompileError> {
    match t
    case AnyTarget => Ok(Everything)
    case BodyFile => Ok(Body)
    case AllHeadersFile => Ok(AllHeaders)
    case HeaderFile(name) =>
      var normalized := Lower(Trim(name));
      if normalized == "" then Err(NoHeaderName)
      else if !IsHeaderName(normalized) then Err(BadHeaderName(name))
      else Ok(Header(normalized))
    case CookiesFile => Ok(Cookies)
  }

  function CompileRule(lib: Library, file: RuleFile): Result<Rule, CompileError> {
    match CompileMatcher(lib, file.matcher)
    case Err(e) => Err(e)
    case Ok(matcher) =>
      if file.from == "" then Err(EmptyFrom)
      else match CompileTarget(file.target)
        case Err(e) => Err(e)
        case Ok(target) => Ok(Rule(matcher, file.from, file.to, target, file.stop))
  }

  /** The rule at `i` is the first that does not compile. */
  predicate FirstBad(lib: Library, files: seq<RuleFile>, i: nat, error: CompileError) {
    && i < |files| && CompileRule(lib, files[i]) == Err(error)
    && forall j | 0 <= j < i :: CompileRule(lib, files[j]).Ok?
  }

  /** All rules or the error of the first one that does not compile. */
  function Compile(lib: Library, files: seq<RuleFile>): (r: Result<seq<Rule>, CompileError>)
    ensures r.Ok? <==> forall i | 0 <= i < |files| :: CompileRule(lib, files[i]).Ok?
    ensures r.Ok? ==> |r.value| == |files|
    ensures r.Ok? ==> forall i | 0 <= i < |files| :: CompileRule(lib, files[i]) == Ok(r.value[i])
    ensures r.Err? ==> exists i | 0 <= i < |files| :: FirstBad(lib, files, i, r.error)
  {
    if files == [] then Ok([])
    else match CompileRule(lib, files[0])
      case Err(e) => assert FirstBad(lib, files, 0, e); Err(e)
      case Ok(rule) =>
        match Compile(lib, files[1..])
        case Err(e) =>
          assert forall i: nat :: FirstBad(lib, files[1..], i, e) ==> FirstBad(lib, files, i + 1, e);
          Err(e)
        case Ok(rest) => Ok([rule] + rest)
  }

  // ---------------------------------------------------------------- matching

  predicate RequiresBody(rule: Rule) { rule.target.Everything? || rule.target.Body? }

  /** Which header values a rule rewrites. */
  predicate Selects(rule: Rule, name: HeaderName) {
    match rule.target
    case Everything => true
    case Body => false
    case AllHeaders => true
    case Header(wanted) => name == wanted
    case Cookies => name == "set-cookie"
  }

  function NormalizedContentType(h: Fields): Option<string> { MediaType(Get(h, "content-type")) }

  /** The media type of a Content-Type value, without parameters and in lower case. */
  function MediaType(contentType: Option<HeaderValue>): Option<string> {
    match contentType
    case None => None
    case Some(value) =>
      match ToStr(value)
      case None => None
      case Some(text) =>
        var kind := Lower(Trim(SplitOn(text, ';')[0]));
        if kind == "" then None else Some(kind)
  }

  predicate Matches(lib: Library, rule: Rule, url: string, h: Fields) {
    match rule.matcher
    case UrlGlob(pattern) => lib.globMatches(pattern, url)
    case ContentTypeGlob(pattern) =>
      var kind := NormalizedContentType(h);
      kind.Some? && lib.globMatches(pattern, kind.value)
    case Always => true
  }

  // ---------------------------------------------------------------- one rule on headers and body

  function ReplaceText(rule: Rule, text: string): string { Replace(text, rule.from, rule.to) }

  function FieldError(rule: Rule, f: Field): Option<TransformError> {
    if !Selects(rule, f.name) then None
    else match ToStr(f.value)
      case None => Some(NotText(f.name))
      case Some(text) => if FromStr(ReplaceText(rule, text)).None? then Some(InvalidValue(f.name)) else None
  }

  predicate FieldChanges(rule: Rule, f: Field) {
    Selects(rule, f.name) && var text := ToStr(f.value); text.Some? && ReplaceText(rule, text.value) != text.value
  }

  function RewriteField(rule: Rule, f: Field): (r: Field)
    requires FieldError(rule, f).None?
    ensures r.name == f.name
    ensures !Selects(rule, f.name) ==> r == f
  {
    if Selects(rule, f.name) then Field(f.name, FromStr(ReplaceText(rule, ToStr(f.value).value)).value) else f
  }

  /** The first field that cannot be rewritten, in map order. */
  function FirstError(rule: Rule, h: Fields): (r: Option<TransformError>)
    ensures r.None? <==> forall f | f in h :: FieldError(rule, f).None?
  {
    if h == [] then None
    else if FieldError(rule, h[0]).Some? then FieldError(rule, h[0])
    else FirstError(rule, h[1..])
  }

  function Rewrite(rule: Rule, h: Fields): (r: Fields)
    requires FirstError(rule, h).None?
    ensures |r| == |h| && forall i | 0 <= i < |h| :: r[i] == RewriteField(rule, h[i])
  {
    seq(|h|, i requires 0 <= i < |h| => RewriteField(rule, h[i]))
  }

  predicate AnyFieldChanges(rule: Rule, h: Fields) { exists f | f in h :: FieldChanges(rule, f) }

  datatype HeaderRun = HeaderRun(fields: Fields, outcome: Result<bool, TransformError>)

  function ApplyHeaders(rule: Rule, h: Fields): HeaderRun {
    var error := FirstError(rule, h);
    if error.Some? then HeaderRun(h, Err(error.value))
    else if AnyFieldChanges(rule, h) then HeaderRun(Rewrite(rule, h), Ok(true))
    else HeaderRun(h, Ok(false))
  }

  predicate BodyChanges(lib: Library, rule: Rule, body: seq<byte>) {
    RequiresBody(rule) && ReplaceText(rule, lib.decodeLossy(body)) != lib.decodeLossy(body)
  }

  /** Bytes that no replacement touches stay as they are, even when they are not valid UTF-8. */
  function ApplyBody(lib: Library, rule: Rule, body: seq<byte>): seq<byte> {
    if BodyChanges(lib, rule, body) then Encode(ReplaceText(rule, lib.decodeLossy(body))) else body
  }

  // ---------------------------------------------------------------- the one-pass meaning of a rule list

  datatype Progress = Continue | Stopped | Failed(error: TransformError)

  /** State and flags after some rules have run. */
  datatype Run = Run(fields: Fields, body: seq<byte>, headersChanged: bool, bodyChanged: bool, progress: Progress)

  function RunRule(lib: Library, rule: Rule, url: string, h: Fields, body: seq<byte>): Run {
    if !Matches(lib, rule, url, h) then Run(h, body, false, false, Continue)
    else
      var headers := ApplyHeaders(rule, h);
      match headers.outcome
      case Err(error) => Run(h, body, false, false, Failed(error))
      case Ok(headersChanged) =>
        var bodyChanged := BodyChanges(lib, rule, body);
        Run(headers.fields, ApplyBody(lib, rule, body), headersChanged, bodyChanged,
            if (headersChanged || bodyChanged) && rule.stop then Stopped else Continue)
  }

  function Then(first: Run, rest: Run): Run {
    rest.(headersChanged := first.headersChanged || rest.headersChanged,
          bodyChanged := first.bodyChanged || rest.bodyChanged)
  }

  /** The whole pipeline over a body that is at hand from the start. */
  function Interpret(lib: Library, rules: seq<Rule>, url: string, h: Fields, body: seq<byte>): Run {
    if rules == [] then Run(h, body, false, false, Continue)
    else
      var first := RunRule(lib, rules[0], url, h, body);
      if first.progress != Continue then first
      else Then(first, Interpret(lib, rules[1..], url, first.fields, first.body))
  }

  // ---------------------------------------------------------------- the streaming prefix

  datatype Disposition = Stream | BufferFrom(index: nat) | Rejected(error: TransformError)

  datatype Prebuffer = Prebuffer(fields: Fields, headersChanged: bool, disposition: Disposition)

  /** Run header-only rules from `index` on until a rule needs the body. */
  function UntilBody(lib: Library, rules: seq<Rule>, index: nat, url: string, h: Fields): (r: Prebuffer)
    requires index <= |rules|
    ensures r.disposition.BufferFrom? ==> index <= r.disposition.index < |rules|
    decreases |rules| - index
  {
    if index == |rules| then Prebuffer(h, false, Stream)
    else if !Matches(lib, rules[index], url, h) then UntilBody(lib, rules, index + 1, url, h)
    else if RequiresBody(rules[index]) then Prebuffer(h, false, BufferFrom(index))
    else
      var headers := ApplyHeaders(rules[index], h);
      match headers.outcome
      case Err(error) => Prebuffer(h, false, Rejected(error))
      case Ok(triggered) =>
        if triggered && rules[index].stop then Prebuffer(headers.fields, true, Stream)
        else
          var rest := UntilBody(lib, rules, index + 1, url, headers.fields);
          rest.(headersChanged := triggered || rest.headersChanged)
  }

  /** Asked before the response exists: may any rule need the body? */
  predicate NeedsPlaintextUpstreamBody(lib: Library, rules: seq<Rule>, url: string) {
    exists rule | rule in rules ::
      RequiresBody(rule) && (rule.matcher.UrlGlob? ==> lib.globMatches(rule.matcher.pattern, url))
  }

  // ---------------------------------------------------------------- two phases refine one pass

  /** What the two phases together have done when the first one ended in `pre`. */
  function TwoPhase(lib: Library, rules: seq<Rule>, url: string, h: Fields, body: seq<byte>): Run {
    var pre := UntilBody(lib, rules, 0, url, h);
    match pre.disposition
    case Rejected(error) => Run(pre.fields, body, pre.headersChanged, false, Failed(error))
    case Stream => Run(pre.fields, body, pre.headersChanged, false, Continue)
    case BufferFrom(index) =>
      var rest := Interpret(lib, rules[index..], url, pre.fields, body);
      rest.(headersChanged := pre.headersChanged || rest.headersChanged)
  }

  /** Equal final headers, body, flags and Ok or Err; whether a run that is Ok stopped early is not reported. */
  predicate SameOutcome(a: Run, b: Run) {
    && a.fields == b.fields && a.body == b.body
    && (a.progress.Failed? || b.progress.Failed? ==> a.progress == b.progress)
    && (a.progress.Failed? || (a.headersChanged == b.headersChanged && a.bodyChanged == b.bodyChanged))
  }

  ghost predicate PrebufferAgrees(lib: Library, rules: seq<Rule>, index: nat, url: string, h: Fields, body: seq<byte>)
    requires index <= |rules|
  {
    var pre := UntilBody(lib, rules, index, url, h);
    var whole := Interpret(lib, rules[index..], url, h, body);
    match pre.disposition
    case Rejected(error) => whole.progress == Failed(error) && whole.fields == pre.fields && whole.body == body
    case Stream =>
      && whole.fields == pre.fields && whole.body == body && !whole.progress.Failed?
      && whole.headersChanged == pre.headersChanged && !whole.bodyChanged
    case BufferFrom(k) =>
      var rest := Interpret(lib, rules[k..], url, pre.fields, body);
      whole == rest.(headersChanged := pre.headersChanged || rest.headersChanged)
  }

  lemma {:induction false} PrebufferAgreesFrom(lib: Library, rules: seq<Rule>, index: nat, url: string, h: Fields,
                                               body: seq<byte>)
    requires index <= |rules|
    ensures PrebufferAgrees(lib, rules, index, url, h, body)
    decreases |rules| - index
  {
    if index < |rules| {
      var rule := rules[index];
      assert rules[index..][0] == rule && rules[index..][1..] == rules[index + 1..];
      if !Matches(lib, rule, url, h) {
        PrebufferAgreesFrom(lib, rules, index + 1, url, h, body);
      } else if !RequiresBody(rule) {
        PrebufferAgreesFrom(lib, rules, index + 1, url, ApplyHeaders(rule, h).fields, body);
      }
    }
  }

  /** Streaming headers first and buffering on demand gives what one pass over the whole response gives. */
  lemma TwoPhaseRefinesOnePass(lib: Library, rules: seq<Rule>, url: string, h: Fields, body: seq<byte>)
    ensures SameOutcome(TwoPhase(lib, rules, url, h, body), Interpret(lib, rules, url, h, body))
    ensures UntilBody(lib, rules, 0, url, h).disposition.Stream? ==>
              Interpret(lib, rules, url, h, body).body == body && !Interpret(lib, rules, url, h, body).bodyChanged
  {
    PrebufferAgreesFrom(lib, rules, 0, url, h, body);
    assert rules[0..] == rules;
  }

  // ---------------------------------------------------------------- the prediction

  /** Whenever some response is buffered, the prediction made from the URL alone said so. */
  lemma {:induction false} PredictionSound(lib: Library, rules: seq<Rule>, index: nat, url: string, h: Fields)
    requires index <= |rules|
    ensures UntilBody(lib, rules, index, url, h).disposition.BufferFrom? ==> NeedsPlaintextUpstreamBody(lib, rules, url)
    decreases |rules| - index
  {
    if index < |rules| {
      var rule := rules[index];
      if !Matches(lib, rule, url, h) {
        PredictionSound(lib, rules, index + 1, url, h);
      } else if RequiresBody(rule) {
        assert rule in rules;
      } else {
        PredictionSound(lib, rules, index + 1, url, ApplyHeaders(rule, h).fields);
      }
    }
  }

  /** The prediction is no larger than it must be: it is true exactly if some rule may change the body and either looks
      at the Content-Type, which is not known yet, or matches whatever the response. */
  lemma PredictionIff(lib: Library, rules: seq<Rule>, url: string)
    ensures NeedsPlaintextUpstreamBody(lib, rules, url) <==>
      exists rule | rule in rules ::
        (rule.target.Everything? || rule.target.Body?)
        && (rule.matcher.ContentTypeGlob? || forall h: Fields :: Matches(lib, rule, url, h))
  {
    forall rule | rule in rules && !rule.matcher.ContentTypeGlob?
      ensures (rule.matcher.UrlGlob? ==> lib.globMatches(rule.matcher.pattern, url))
         <==> forall h: Fields :: Matches(lib, rule, url, h)
    {
      assert Matches(lib, rule, url, []) <==> forall h: Fields :: Matches(lib, rule, url, h);
    }
  }

  /** Rule k matches and needs the body when the rules from `index` on have run before it. */
  ghost predicate NeedsBodyAt(lib: Library, rules: seq<Rule>, index: nat, k: nat, url: string, h: Fields,
                              body: seq<byte>)
    requires index <= k < |rules|
  {
    Matches(lib, rules[k], url, Interpret(lib, rules[index..k], url, h, body).fields) && RequiresBody(rules[k])
  }

  /** And is the first to do so, and the pass gets there. */
  ghost predicate FirstToNeedBody(lib: Library, rules: seq<Rule>, index: nat, k: nat, url: string, h: Fields,
                                  body: seq<byte>)
    requires index <= k < |rules|
  {
    && Interpret(lib, rules[index..k], url, h, body).progress == Continue
    && NeedsBodyAt(lib, rules, index, k, url, h, body)
    && forall j | index <= j < k :: !NeedsBodyAt(lib, rules, index, j, url, h, body)
  }

  lemma OneRuleLater(lib: Library, rules: seq<Rule>, index: nat, k: nat, url: string, h: Fields, body: seq<byte>)
    requires index < k < |rules| && RunRule(lib, rules[index], url, h, body).progress == Continue
    ensures var run := RunRule(lib, rules[index], url, h, body);
      var before, after := Interpret(lib, rules[index..k], url, h, body),
                           Interpret(lib, rules[index + 1..k], url, run.fields, run.body);
      before.fields == after.fields && before.progress == after.progress
  {
    assert rules[index..k][0] == rules[index] && rules[index..k][1..] == rules[index + 1..k];
  }

  lemma NeedsLater(lib: Library, rules: seq<Rule>, index: nat, k: nat, url: string, h: Fields, body: seq<byte>)
    requires index < k < |rules| && RunRule(lib, rules[index], url, h, body).progress == Continue
    ensures var run := RunRule(lib, rules[index], url, h, body);
      NeedsBodyAt(lib, rules, index, k, url, h, body) <==>
      NeedsBodyAt(lib, rules, index + 1, k, url, run.fields, run.body)
  {
    OneRuleLater(lib, rules, index, k, url, h, body);
  }

  lemma FirstLater(lib: Library, rules: seq<Rule>, index: nat, k: nat, url: string, h: Fields, body: seq<byte>)
    requires index < k < |rules| && RunRule(lib, rules[index], url, h, body).progress == Continue
    requires !NeedsBodyAt(lib, rules, index, index, url, h, body)
    ensures var run := RunRule(lib, rules[index], url, h, body);
      FirstToNeedBody(lib, rules, index, k, url, h, body) <==>
      FirstToNeedBody(lib, rules, index + 1, k, url, run.fields, run.body)
  {
    var run, next := RunRule(lib, rules[index], url, h, body), index + 1;
    OneRuleLater(lib, rules, index, k, url, h, body);
    NeedsLater(lib, rules, index, k, url, h, body);
    if FirstToNeedBody(lib, rules, index, k, url, h, body) {
      forall j | next <= j < k ensures !NeedsBodyAt(lib, rules, next, j, url, run.fields, run.body) {
        assert !NeedsBodyAt(lib, rules, index, j, url, h, body);
        NeedsLater(lib, rules, index, j, url, h, body);
      }
    }
    if FirstToNeedBody(lib, rules, index + 1, k, url, run.fields, run.body) {
      forall j | index <= j < k ensures !NeedsBodyAt(lib, rules, index, j, url, h, body) {
        if j > index { NeedsLater(lib, rules, index, j, url, h, body); }
      }
    }
  }

  lemma {:induction false} BufferFromAt(lib: Library, rules: seq<Rule>, index: nat, k: nat, url: string, h: Fields,
                                        body: seq<byte>)
    requires index <= k < |rules|
    ensures UntilBody(lib, rules, index, url, h).disposition == BufferFrom(k)
       <==> FirstToNeedBody(lib, rules, index, k, url, h, body)
    decreases k - index
  {
    var rule := rules[index];
    assert rules[index..index] == [];
    assert NeedsBodyAt(lib, rules, index, index, url, h, body) <==> Matches(lib, rule, url, h) && RequiresBody(rule);
    if !(Matches(lib, rule, url, h) && RequiresBody(rule)) {
      var run := RunRule(lib, rule, url, h, body);
      HeaderRuleStreams(lib, rules, index, url, h, body);
      if index == k {
        assert !FirstToNeedBody(lib, rules, index, k, url, h, body);
      } else if run.progress == Continue {
        FirstLater(lib, rules, index, k, url, h, body);
        BufferFromAt(lib, rules, index + 1, k, url, run.fields, run.body);
      } else {
        assert rules[index..k][0] == rule;
        assert Interpret(lib, rules[index..k], url, h, body) == run;
      }
    } else if index < k {
      assert !FirstToNeedBody(lib, rules, index, k, url, h, body);
    }
  }

  lemma HeaderRuleStreams(lib: Library, rules: seq<Rule>, index: nat, url: string, h: Fields, body: seq<byte>)
    requires index < |rules| && !(Matches(lib, rules[index], url, h) && RequiresBody(rules[index]))
    ensures var run, pre := RunRule(lib, rules[index], url, h, body), UntilBody(lib, rules, index, url, h);
      && run.body == body
      && (run.progress == Continue ==> pre.disposition == UntilBody(lib, rules, index + 1, url, run.fields).disposition)
      && (run.progress != Continue ==> !pre.disposition.BufferFrom?)
  {
  }

  /** The streaming prefix hands over to the buffered phase at rule k exactly if k is the first rule that matches and
      needs the body when its turn comes in the one pass, whatever the body is. */
  lemma BufferFromIff(lib: Library, rules: seq<Rule>, k: nat, url: string, h: Fields, body: seq<byte>)
    requires k < |rules|
    ensures UntilBody(lib, rules, 0, url, h).disposition == BufferFrom(k)
       <==> FirstToNeedBody(lib, rules, 0, k, url, h, body)
  {
    BufferFromAt(lib, rules, 0, k, url, h, body);
  }

  /** So a response is buffered exactly if there is such a rule. */
  lemma BufferedIff(lib: Library, rules: seq<Rule>, url: string, h: Fields, body: seq<byte>)
    ensures UntilBody(lib, rules, 0, url, h).disposition.BufferFrom?
       <==> exists k | 0 <= k < |rules| :: FirstToNeedBody(lib, rules, 0, k, url, h, body)
  {
    forall k | 0 <= k < |rules|
      ensures UntilBody(lib, rules, 0, url, h).disposition == BufferFrom(k)
         <==> FirstToNeedBody(lib, rules, 0, k, url, h, body)
    {
      BufferFromIff(lib, rules, k, url, h, body);
    }
  }

  predicate NeedsBodyWhateverTheType(lib: Library, rule: Rule, url: string) {
    && RequiresBody(rule)
    && (rule.matcher.Always? || (rule.matcher.UrlGlob? && lib.globMatches(rule.matcher.pattern, url)))
  }

  /** The prediction errs only on Content-Type rules: a response without headers is buffered
      exactly when a body rule matches without looking at the Content-Type. */
  lemma {:induction false} PredictionTight(lib: Library, rules: seq<Rule>, index: nat, url: string)
    requires index <= |rules|
    ensures UntilBody(lib, rules, index, url, []).disposition.BufferFrom?
       <==> exists k | index <= k < |rules| :: NeedsBodyWhateverTheType(lib, rules[k], url)
    decreases |rules| - index
  {
    if index < |rules| {
      PredictionTight(lib, rules, index + 1, url);
    }
  }

  // ---------------------------------------------------------------- when a rule triggers

  /** The rule selects the field, its value is readable and contains the needle. */
  ghost predicate FieldHit(rule: Rule, f: Field) {
    Selects(rule, f.name) && ToStr(f.value).Some? && Occurs(ToStr(f.value).value, rule.from)
  }

  /** The rule selects the field, and its value is unreadable, or contains the needle while the replacement holds a
      control character other than tab. */
  ghost predicate FieldBad(rule: Rule, f: Field) {
    Selects(rule, f.name) && (ToStr(f.value).None? || (FieldHit(rule, f) && HasControl(rule.to)))
  }

  lemma FieldErrorIff(rule: Rule, f: Field)
    ensures FieldError(rule, f).Some? <==> FieldBad(rule, f)
    ensures FieldBad(rule, f) ==>
      FieldError(rule, f) == Some(if ToStr(f.value).None? then NotText(f.name) else InvalidValue(f.name))
  {
    if Selects(rule, f.name) && ToStr(f.value).Some? {
      var text := ToStr(f.value).value;
      ToStrNoControl(f.value);
      ReplaceControl(text, rule.from, rule.to);
      FromStrIff(ReplaceText(rule, text));
    }
  }

  /** A failing rule reports its first bad field, in map order. */
  lemma {:induction false} FirstErrorIs(rule: Rule, h: Fields) returns (i: nat)
    requires FirstError(rule, h).Some?
    ensures i < |h| && FieldBad(rule, h[i]) && FirstError(rule, h) == FieldError(rule, h[i])
    ensures forall j | 0 <= j < i :: !FieldBad(rule, h[j])
  {
    FieldErrorIff(rule, h[0]);
    if FieldError(rule, h[0]).Some? {
      i := 0;
    } else {
      var k := FirstErrorIs(rule, h[1..]);
      i := k + 1;
    }
  }

  /** Some selected header value contains the needle. */
  ghost predicate HeaderHit(rule: Rule, h: Fields) {
    exists f | f in h :: FieldHit(rule, f)
  }

  ghost predicate BodyHit(lib: Library, rule: Rule, body: seq<byte>) {
    RequiresBody(rule) && Occurs(lib.decodeLossy(body), rule.from)
  }

  lemma FieldChangesIff(rule: Rule, f: Field)
    ensures FieldChanges(rule, f)
       <==> FieldHit(rule, f) && rule.from != rule.to
  {
    if ToStr(f.value).Some? { ReplaceChangesIff(ToStr(f.value).value, rule.from, rule.to); }
  }

  /** A rule that runs fails exactly on a bad field. Otherwise it triggers, and a stop rule stops, exactly when the
      needle occurs in a selected header value or in the decoded body and is not replaced by itself. */
  lemma TriggersIff(lib: Library, rule: Rule, url: string, h: Fields, body: seq<byte>)
    ensures var run := RunRule(lib, rule, url, h, body);
      && (run.progress.Failed? <==> Matches(lib, rule, url, h) && exists f | f in h :: FieldBad(rule, f))
      && (!run.progress.Failed? && Matches(lib, rule, url, h) ==>
            && (run.headersChanged <==> HeaderHit(rule, h) && rule.from != rule.to)
            && (run.bodyChanged <==> BodyHit(lib, rule, body) && rule.from != rule.to)
            && (run.progress.Stopped? <==>
                  rule.stop && rule.from != rule.to && (HeaderHit(rule, h) || BodyHit(lib, rule, body))))
  {
    forall f | f in h
      ensures FieldChanges(rule, f) <==> FieldHit(rule, f) && rule.from != rule.to
      ensures FieldError(rule, f).Some? <==> FieldBad(rule, f)
    {
      FieldChangesIff(rule, f);
      FieldErrorIff(rule, f);
    }
    ReplaceChangesIff(lib.decodeLossy(body), rule.from, rule.to);
  }

  // ---------------------------------------------------------------- the frame of a rule

  /** A rule that does not trigger, or fails, leaves the response alone. */
  lemma UntriggeredIsIdentity(lib: Library, rule: Rule, url: string, h: Fields, body: seq<byte>)
    ensures var run := RunRule(lib, rule, url, h, body);
      && (!run.headersChanged ==> run.fields == h)
      && (!run.bodyChanged ==> run.body == body)
      && (run.progress.Failed? ==> !run.headersChanged && !run.bodyChanged)
  {
  }

  predicate RewrittenTo(rule: Rule, before: HeaderValue, after: HeaderValue) {
    ToStr(before).Some? && FromStr(ReplaceText(rule, ToStr(before).value)) == Some(after)
  }

  /** As many values, in the same order, each one rewritten if the rule selects the name. */
  predicate ValuesRewritten(rule: Rule, name: HeaderName, before: seq<HeaderValue>, after: seq<HeaderValue>) {
    && |after| == |before|
    && forall i | 0 <= i < |before| ::
         if Selects(rule, name) then RewrittenTo(rule, before[i], after[i]) else after[i] == before[i]
  }

  lemma {:induction false} RewriteValues(rule: Rule, h: Fields, name: HeaderName)
    requires FirstError(rule, h).None?
    ensures ValuesRewritten(rule, name, GetAll(h, name), GetAll(Rewrite(rule, h), name))
  {
    if h != [] {
      RewriteValues(rule, h[1..], name);
      var first, rest := RewriteField(rule, h[0]), Rewrite(rule, h[1..]);
      assert Rewrite(rule, h) == [first] + rest && h == [h[0]] + h[1..];
      GetAllCons(h[0], h[1..], name);
      GetAllCons(first, rest, name);
      if h[0].name == name {
        assert Selects(rule, name) ==> RewrittenTo(rule, h[0].value, first.value);
      }
    }
  }

  /** A header rule that fails leaves every value alone; one that succeeds, triggered or not, maps the
      replacement over exactly the values it selects. */
  lemma HeaderRuleFrame(rule: Rule, h: Fields, name: HeaderName)
    ensures var run := ApplyHeaders(rule, h);
      && (run.outcome.Err? ==> run.fields == h)
      && (run.outcome.Ok? ==> ValuesRewritten(rule, name, GetAll(h, name), GetAll(run.fields, name)))
  {
    var run := ApplyHeaders(rule, h);
    if run.outcome == Ok(true) {
      RewriteValues(rule, h, name);
    } else if run.outcome == Ok(false) && Selects(rule, name) {
      var values := GetAll(h, name);
      forall i | 0 <= i < |values| ensures RewrittenTo(rule, values[i], values[i]) {
        GetAllMember(h, name, values[i]);
        var f := Field(name, values[i]);
        assert FieldError(rule, f).None? && !FieldChanges(rule, f);
        FromStrOfToStr(values[i]);
      }
    }
  }

  // ---------------------------------------------------------------- what each target means

  /** Replacement is mapped over the values: as many, in the same order. */
  predicate Mapped(rule: Rule, before: seq<HeaderValue>, after: seq<HeaderValue>) {
    && |after| == |before|
    && forall i | 0 <= i < |before| ::
         ToStr(before[i]).Some? && FromStr(Replace(ToStr(before[i]).value, rule.from, rule.to)) == Some(after[i])
  }

  lemma MappedIff(rule: Rule, name: HeaderName, before: seq<HeaderValue>, after: seq<HeaderValue>)
    requires ValuesRewritten(rule, name, before, after)
    ensures Selects(rule, name) ==> Mapped(rule, before, after)
    ensures !Selects(rule, name) ==> after == before
  {
    if Selects(rule, name) {
      forall i | 0 <= i < |before|
        ensures ToStr(before[i]).Some? && FromStr(Replace(ToStr(before[i]).value, rule.from, rule.to)) == Some(after[i])
      {
        assert RewrittenTo(rule, before[i], after[i]);
      }
    }
  }

  /** What a header rule does to the values of any name, target by target. */
  lemma TargetEffect(rule: Rule, h: Fields, name: HeaderName)
    requires ApplyHeaders(rule, h).outcome.Ok?
    ensures var before, after := GetAll(h, name), GetAll(ApplyHeaders(rule, h).fields, name);
      && (rule.target == Everything ==> Mapped(rule, before, after))
      && (rule.target == AllHeaders ==> Mapped(rule, before, after))
      && (rule.target == Header(name) ==> Mapped(rule, before, after))
      && (rule.target.Header? && rule.target.name != name ==> after == before)
      && (rule.target == Cookies && name == "set-cookie" ==> Mapped(rule, before, after))
      && (rule.target == Cookies && name != "set-cookie" ==> after == before)
      && (rule.target == Body ==> after == before)
  {
    HeaderRuleFrame(rule, h, name);
    MappedIff(rule, name, GetAll(h, name), GetAll(ApplyHeaders(rule, h).fields, name));
  }

  /** The value cannot be rewritten: it is unreadable, or gets a control character. */
  ghost predicate Unfit(rule: Rule, value: HeaderValue) {
    ToStr(value).None? || (Occurs(ToStr(value).value, rule.from) && HasControl(rule.to))
  }

  /** The value changes when it is rewritten. */
  ghost predicate Changes(rule: Rule, value: HeaderValue) {
    ToStr(value).Some? && Occurs(ToStr(value).value, rule.from) && rule.from != rule.to
  }

  lemma UnfitIff(rule: Rule, h: Fields)
    ensures ApplyHeaders(rule, h).outcome.Err? <==> exists f | f in h :: Selects(rule, f.name) && Unfit(rule, f.value)
    ensures ApplyHeaders(rule, h).outcome.Ok? ==>
      (ApplyHeaders(rule, h).outcome.value <==> exists f | f in h :: Selects(rule, f.name) && Changes(rule, f.value))
  {
    forall f | f in h
      ensures FieldError(rule, f).Some? <==> Selects(rule, f.name) && Unfit(rule, f.value)
      ensures FieldChanges(rule, f) <==> Selects(rule, f.name) && Changes(rule, f.value)
    {
      FieldErrorIff(rule, f);
      FieldChangesIff(rule, f);
    }
  }

  /** When a header rule fails, target by target. */
  lemma TargetFails(rule: Rule, h: Fields)
    ensures var failed := ApplyHeaders(rule, h).outcome.Err?;
      && (rule.target == Everything ==> (failed <==> exists f | f in h :: Unfit(rule, f.value)))
      && (rule.target == AllHeaders ==> (failed <==> exists f | f in h :: Unfit(rule, f.value)))
      && (rule.target.Header? ==> (failed <==> exists f | f in h :: f.name == rule.target.name && Unfit(rule, f.value)))
      && (rule.target == Cookies ==> (failed <==> exists f | f in h :: f.name == "set-cookie" && Unfit(rule, f.value)))
      && (rule.target == Body ==> !failed)
  {
    UnfitIff(rule, h);
  }

  /** When it triggers, target by target. */
  lemma TargetTriggers(rule: Rule, h: Fields)
    requires ApplyHeaders(rule, h).outcome.Ok?
    ensures var changed := ApplyHeaders(rule, h).outcome.value;
      && (rule.target == Everything ==> (changed <==> exists f | f in h :: Changes(rule, f.value)))
      && (rule.target == AllHeaders ==> (changed <==> exists f | f in h :: Changes(rule, f.value)))
      && (rule.target.Header? ==>
            (changed <==> exists f | f in h :: f.name == rule.target.name && Changes(rule, f.value)))
      && (rule.target == Cookies ==>
            (changed <==> exists f | f in h :: f.name == "set-cookie" && Changes(rule, f.value)))
      && (rule.target == Body ==> !changed)
  {
    UnfitIff(rule, h);
  }

  /** What a rule does to the body: the targets `any` and `body` replace in the decoded text if the needle occurs and
      differs from its replacement; otherwise, and for the header targets, every byte stays. A rule that does not match
      does nothing. */
  lemma BodyEffect(lib: Library, rule: Rule, url: string, h: Fields, body: seq<byte>)
    ensures var run, text := RunRule(lib, rule, url, h, body), lib.decodeLossy(body);
      var hit := Occurs(text, rule.from) && rule.from != rule.to;
      && (!Matches(lib, rule, url, h) ==> run == Run(h, body, false, false, Continue))
      && (rule.target in {Everything, Body} && Matches(lib, rule, url, h) && !run.progress.Failed? ==>
            run.bodyChanged == hit && run.body == if hit then Encode(Replace(text, rule.from, rule.to)) else body)
      && (rule.target !in {Everything, Body} || run.progress.Failed? ==> run.body == body && !run.bodyChanged)
  {
    ReplaceChangesIff(lib.decodeLossy(body), rule.from, rule.to);
  }

  // ---------------------------------------------------------------- what the configured rule means

  /** The media type is the text before the first semicolon, trimmed and in lower case; blank text is none. */
  lemma MediaTypeIs(value: HeaderValue, kind: string, rest: string)
    requires ToStr(value).Some? && ';' !in kind
    requires ToStr(value).value == kind || ToStr(value).value == kind + ([';'] + rest)
    ensures MediaType(Some(value)) == if Lower(Trim(kind)) == "" then None else Some(Lower(Trim(kind)))
  {
    if ToStr(value).value == kind {
      SplitOnPlain(kind, ';');
    } else {
      SplitOnHead(kind, rest, ';');
    }
  }

  /** Whether a configured rule matches a response: by URL, by the first Content-Type value, or always. */
  lemma CompiledMatches(lib: Library, file: RuleFile, url: string, h: Fields)
    requires CompileRule(lib, file).Ok?
    ensures var matches := Matches(lib, CompileRule(lib, file).value, url, h);
      && (file.matcher.UrlGlobFile? ==> (matches <==> lib.globMatches(file.matcher.pattern, url)))
      && (file.matcher.AnyMatcher? ==> matches)
      && (file.matcher.ContentTypeGlobFile? && GetAll(h, "content-type") == [] ==> !matches)
      && (file.matcher.ContentTypeGlobFile? && GetAll(h, "content-type") != [] ==>
            (ToStr(GetAll(h, "content-type")[0]).None? ==> !matches))
      && (file.matcher.ContentTypeGlobFile? && GetAll(h, "content-type") != [] ==>
            var kind := MediaType(Some(GetAll(h, "content-type")[0]));
            matches <==> kind.Some? && lib.globMatches(Lower(file.matcher.pattern), kind.value))
  {
  }

  /** When a configured rule compiles, and to what: the text of its pattern must be a glob, its needle must not be
      empty, and a header target must name a header when trimmed and in lower case. */
  lemma CompileRuleIff(lib: Library, file: RuleFile)
    ensures var r := CompileRule(lib, file);
      && (r.Ok? <==>
            && (file.matcher.UrlGlobFile? ==> lib.globCompiles(file.matcher.pattern))
            && (file.matcher.ContentTypeGlobFile? ==> lib.globCompiles(Lower(file.matcher.pattern)))
            && file.from != ""
            && (file.target.HeaderFile? ==> IsHeaderName(Lower(Trim(file.target.name)))))
      && (r.Ok? ==>
            && r.value.from == file.from && r.value.to == file.to && r.value.stop == file.stop
            && r.value.target == (match file.target
                                  case AnyTarget => Everything
                                  case BodyFile => Body
                                  case AllHeadersFile => AllHeaders
                                  case HeaderFile(name) => Header(Lower(Trim(name)))
                                  case CookiesFile => Cookies))
  {
  }

  predicate BadPattern(lib: Library, m: MatcherFile) {
    || (m.UrlGlobFile? && !lib.globCompiles(m.pattern))
    || (m.ContentTypeGlobFile? && !lib.globCompiles(Lower(m.pattern)))
  }

  predicate BadTarget(t: TargetFile, error: CompileError) {
    t.HeaderFile? && error == if Lower(Trim(t.name)) == "" then NoHeaderName else BadHeaderName(t.name)
  }

  lemma MatcherError(lib: Library, m: MatcherFile)
    ensures CompileMatcher(lib, m).Err? <==> BadPattern(lib, m)
    ensures BadPattern(lib, m) ==> CompileMatcher(lib, m) == Err(BadGlob(m.pattern))
  {
  }

  lemma TargetError(t: TargetFile)
    ensures CompileTarget(t).Err? ==> BadTarget(t, CompileTarget(t).error)
  {
  }

  /** The first thing that is wrong is reported: the pattern, then the needle, then the header name. */
  lemma CompileRuleError(lib: Library, file: RuleFile)
    ensures BadPattern(lib, file.matcher) ==> CompileRule(lib, file) == Err(BadGlob(file.matcher.pattern))
    ensures !BadPattern(lib, file.matcher) && file.from == "" ==> CompileRule(lib, file) == Err(EmptyFrom)
    ensures !BadPattern(lib, file.matcher) && file.from != "" && CompileRule(lib, file).Err? ==>
              BadTarget(file.target, CompileRule(lib, file).error)
  {
    MatcherError(lib, file.matcher);
    TargetError(file.target);
  }

  // ---------------------------------------------------------------- the order of names does not matter

  /** Equal as multimaps: each name has the same values in the same order. */
  ghost predicate SameValues(a: Fields, b: Fields) {
    forall name: string :: GetAll(a, name) == GetAll(b, name)
  }

  lemma SameMembers(a: Fields, b: Fields)
    requires SameValues(a, b)
    ensures forall f :: f in a <==> f in b
  {
    forall f: Field ensures f in a <==> f in b {
      GetAllMember(a, f.name, f.value);
      GetAllMember(b, f.name, f.value);
      assert GetAll(a, f.name) == GetAll(b, f.name);
    }
  }

  lemma {:induction false} NameAbsent(h: Fields, name: string)
    requires !IsHeaderName(name)
    ensures GetAll(h, name) == []
  {
    if h != [] { NameAbsent(h[1..], name); }
  }

  lemma ApplyHeadersOrder(rule: Rule, a: Fields, b: Fields)
    requires SameValues(a, b)
    ensures var x, y := ApplyHeaders(rule, a), ApplyHeaders(rule, b);
      SameValues(x.fields, y.fields) && (x.outcome.Ok? || y.outcome.Ok? ==> x.outcome == y.outcome)
  {
    SameMembers(a, b);
    if ApplyHeaders(rule, a).outcome == Ok(true) {
      assert ApplyHeaders(rule, b).outcome == Ok(true);
      forall name: string ensures GetAll(Rewrite(rule, a), name) == GetAll(Rewrite(rule, b), name) {
        if IsHeaderName(name) {
          RewriteValues(rule, a, name);
          RewriteValues(rule, b, name);
          assert GetAll(a, name) == GetAll(b, name);
        } else {
          NameAbsent(Rewrite(rule, a), name);
          NameAbsent(Rewrite(rule, b), name);
        }
      }
    }
  }

  /** Equal up to the order of names, and up to which of several unreadable headers is reported. */
  ghost predicate SameRun(x: Run, y: Run) {
    && SameValues(x.fields, y.fields) && x.body == y.body
    && x.headersChanged == y.headersChanged && x.bodyChanged == y.bodyChanged
    && (x.progress == y.progress || (x.progress.Failed? && y.progress.Failed?))
  }

  lemma ContentTypeOrder(a: Fields, b: Fields)
    requires SameValues(a, b)
    ensures NormalizedContentType(a) == NormalizedContentType(b)
  {
    assert Get(a, "content-type") == Get(b, "content-type");
  }

  lemma MatchesOrder(lib: Library, rule: Rule, url: string, a: Fields, b: Fields)
    requires SameValues(a, b)
    ensures Matches(lib, rule, url, a) == Matches(lib, rule, url, b)
  {
    ContentTypeOrder(a, b);
  }

  lemma RunRuleOrder(lib: Library, rule: Rule, url: string, a: Fields, b: Fields, body: seq<byte>)
    requires SameValues(a, b)
    ensures SameRun(RunRule(lib, rule, url, a, body), RunRule(lib, rule, url, b, body))
  {
    MatchesOrder(lib, rule, url, a, b);
    ApplyHeadersOrder(rule, a, b);
  }

  /** The hash map's order of names cannot be observed through the transforms. */
  lemma {:induction false} NameOrderIrrelevant(lib: Library, rules: seq<Rule>, url: string, a: Fields, b: Fields,
                                               body: seq<byte>)
    requires SameValues(a, b)
    ensures SameRun(Interpret(lib, rules, url, a, body), Interpret(lib, rules, url, b, body))
  {
    if rules != [] {
      RunRuleOrder(lib, rules[0], url, a, b, body);
      var x, y := RunRule(lib, rules[0], url, a, body), RunRule(lib, rules[0], url, b, body);
      NameOrderIrrelevant(lib, rules[1..], url, x.fields, y.fields, x.body);
    }
  }

  // ---------------------------------------------------------------- rule lists

  /** No rules, no change; a single rule by itself. */
  lemma InterpretShort(lib: Library, rule: Rule, url: string, h: Fields, body: seq<byte>)
    ensures Interpret(lib, [], url, h, body) == Run(h, body, false, false, Continue)
    ensures Interpret(lib, [rule], url, h, body) == RunRule(lib, rule, url, h, body)
  {
    assert [rule][1..] == [];
  }

  lemma {:induction false} InterpretSplits(lib: Library, front: seq<Rule>, back: seq<Rule>, url: string, h: Fields,
                                           body: seq<byte>)
    ensures var first := Interpret(lib, front, url, h, body);
      Interpret(lib, front + back, url, h, body)
      == if first.progress != Continue then first
         else Then(first, Interpret(lib, back, url, first.fields, first.body))
  {
    if front == [] {
      assert front + back == back;
    } else {
      assert (front + back)[0] == front[0] && (front + back)[1..] == front[1..] + back;
      var run := RunRule(lib, front[0], url, h, body);
      InterpretSplits(lib, front[1..], back, url, run.fields, run.body);
    }
  }

  /** Running a longer list is running its front, then, if the front did not end the run, the rest on what it left;
      headers or body have changed if they did in either. */
  lemma InterpretConcat(lib: Library, front: seq<Rule>, back: seq<Rule>, url: string, h: Fields, body: seq<byte>)
    ensures var first, whole := Interpret(lib, front, url, h, body), Interpret(lib, front + back, url, h, body);
      var rest := Interpret(lib, back, url, first.fields, first.body);
      && (first.progress != Continue ==> whole == first)
      && (first.progress == Continue ==>
            && whole.fields == rest.fields && whole.body == rest.body && whole.progress == rest.progress
            && whole.headersChanged == (first.headersChanged || rest.headersChanged)
            && whole.bodyChanged == (first.bodyChanged || rest.bodyChanged))
  {
    InterpretSplits(lib, front, back, url, h, body);
  }

  lemma SkipHead(lib: Library, rules: seq<Rule>, url: string, h: Fields, body: seq<byte>)
    requires rules != []
    requires var ran := RunRule(lib, rules[0], url, h, body);
      ran.progress == Continue && !ran.headersChanged && !ran.bodyChanged
    ensures Interpret(lib, rules, url, h, body) == Interpret(lib, rules[1..], url, h, body)
  {
    UntriggeredIsIdentity(lib, rules[0], url, h, body);
  }

  /** Deleting a rule that ran without triggering changes neither the response nor the outcome. */
  lemma DeleteUntriggered(lib: Library, rules: seq<Rule>, k: nat, url: string, h: Fields, body: seq<byte>)
    requires k < |rules|
    requires var before := Interpret(lib, rules[..k], url, h, body);
      var ran := RunRule(lib, rules[k], url, before.fields, before.body);
      before.progress == Continue && ran.progress == Continue && !ran.headersChanged && !ran.bodyChanged
    ensures Interpret(lib, rules[..k] + rules[k + 1..], url, h, body) == Interpret(lib, rules, url, h, body)
  {
    var before := Interpret(lib, rules[..k], url, h, body);
    assert rules[k..][0] == rules[k] && rules[k..][1..] == rules[k + 1..];
    SkipHead(lib, rules[k..], url, before.fields, before.body);
    InterpretConcat(lib, rules[..k], rules[k + 1..], url, h, body);
    InterpretConcat(lib, rules[..k], rules[k..], url, h, body);
    assert rules == rules[..k] + rules[k..];
  }

  /** Whatever follows the rule that ended the run is irrelevant. */
  lemma AfterStopIrrelevant(lib: Library, rules: seq<Rule>, k: nat, others: seq<Rule>, url: string, h: Fields,
                            body: seq<byte>)
    requires k <= |rules| && Interpret(lib, rules[..k], url, h, body).progress != Continue
    ensures Interpret(lib, rules[..k] + others, url, h, body) == Interpret(lib, rules, url, h, body)
  {
    InterpretConcat(lib, rules[..k], others, url, h, body);
    InterpretConcat(lib, rules[..k], rules[k..], url, h, body);
    assert rules == rules[..k] + rules[k..];
  }
}
