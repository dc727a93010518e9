/** The forms of the admin pages (src/admin.rs): what the views emit and what a submission is parsed to. */
module Admin {
  import opened Common
  import opened Text
  import opened Transform

  // ---------------------------------------------------------------- keys of the transforms form

  datatype Suffix = Present | MatcherType | MatcherPattern | ActionFrom | ActionTo | TargetType | TargetName | Stop

  function SuffixText(s: Suffix): string {
    match s
    case Present => "present"
    case MatcherType => "matcher_type"
    case MatcherPattern => "matcher_pattern"
    case ActionFrom => "action_from"
    case ActionTo => "action_to"
    case TargetType => "target_type"
    case TargetName => "target_name"
    case Stop => "stop"
  }

  datatype Key = TransformCount | Field(index: nat, suffix: Suffix)

  /** `owned_name`. */
  function OwnedName(index: nat, suffix: string): string { "transform_" + (Decimal(index) + (['_'] + suffix)) }

  function KeyText(k: Key): string {
    match k
    case TransformCount => "transform_count"
    case Field(index, suffix) => OwnedName(index, SuffixText(suffix))
  }

  lemma SuffixInjective(a: Suffix, b: Suffix)
    requires SuffixText(a) == SuffixText(b)
    ensures a == b
  {
    var s, t := SuffixText(a), SuffixText(b);
    assert |s| == |t| && s[0] == t[0];
    if |s| == 11 { assert s[7] == t[7]; }
  }

  /** Digits end at the underscore, so index and suffix can be read back. */
  lemma SplitAtUnderscore(a: string, b: string, s: string, t: string)
    requires AllDigits(a) && AllDigits(b) && a + (['_'] + s) == b + (['_'] + t)
    ensures a == b && s == t
  {
    var x, y := a + (['_'] + s), b + (['_'] + t);
    assert x[|a|] == '_' && y[|b|] == '_';
    assert (forall i | 0 <= i < |a| :: IsDigit(x[i])) && (forall i | 0 <= i < |b| :: IsDigit(y[i]));
    assert a == x[..|a|] && b == y[..|b|];
    assert s == x[|a| + 1..] && t == y[|b| + 1..];
  }

  lemma OwnedNameInjective(i: nat, s: string, j: nat, t: string)
    requires OwnedName(i, s) == OwnedName(j, t)
    ensures i == j && s == t
  {
    var rest := (k: nat, u: string) => Decimal(k) + (['_'] + u);
    assert OwnedName(i, s)[10..] == rest(i, s) && OwnedName(j, t)[10..] == rest(j, t);
    SplitAtUnderscore(Decimal(i), Decimal(j), s, t);
    DecimalValue(i);
    DecimalValue(j);
  }

  lemma OwnedNameIsNotCount(i: nat, s: string)
    ensures OwnedName(i, s) != "transform_count"
  {
    assert OwnedName(i, s)[10] == Decimal(i)[0] && IsDigit(Decimal(i)[0]);
    assert "transform_count"[10] == 'c';
  }

  /** No two fields of the form share a name. */
  lemma KeyTextInjective(a: Key, b: Key)
    requires KeyText(a) == KeyText(b)
    ensures a == b
  {
    if a.Field? { OwnedNameIsNotCount(a.index, SuffixText(a.suffix)); }
    if b.Field? { OwnedNameIsNotCount(b.index, SuffixText(b.suffix)); }
    if a.Field? && b.Field? {
      OwnedNameInjective(a.index, SuffixText(a.suffix), b.index, SuffixText(b.suffix));
      SuffixInjective(a.suffix, b.suffix);
    }
  }

  // ---------------------------------------------------------------- what the transforms page emits

  function MatcherTypeValue(m: MatcherFile): string {
    match m
    case UrlGlobFile(_) => "url_glob"
    case ContentTypeGlobFile(_) => "content_type_glob"
    case AnyMatcher => "any"
  }

  function MatcherPatternValue(m: MatcherFile): string {
    match m
    case UrlGlobFile(pattern) => pattern
    case ContentTypeGlobFile(pattern) => pattern
    case AnyMatcher => ""
  }

  function TargetTypeValue(t: TargetFile): string {
    match t
    case AnyTarget => "any"
    case BodyFile => "body"
    case AllHeadersFile => "all_headers"
    case HeaderFile(_) => "header"
    case CookiesFile => "cookies"
  }

  function TargetNameValue(t: TargetFile): string { if t.HeaderFile? then t.name else "" }

  /** The value of one field of a rule's editor; an unchecked box is not sent. */
  function RuleValue(rule: RuleFile, suffix: Suffix): Option<string> {
    match suffix
    case Present => Some("true")
    case MatcherType => Some(MatcherTypeValue(rule.matcher))
    case MatcherPattern => Some(MatcherPatternValue(rule.matcher))
    case ActionFrom => Some(rule.from)
    case ActionTo => Some(rule.to)
    case TargetType => Some(TargetTypeValue(rule.target))
    case TargetName => Some(TargetNameValue(rule.target))
    case Stop => if rule.stop then Some("true") else None
  }

  function Emitted(rules: seq<RuleFile>, k: Key): Option<string> {
    match k
    case TransformCount => Some(Decimal(|rules|))
    case Field(index, suffix) => if index < |rules| then RuleValue(rules[index], suffix) else None
  }

  /** The fields of the page for `rules`. */
  predicate OnPage(rules: seq<RuleFile>, k: Key) { k.Field? ==> k.index < |rules| }

  /** A submission of the page for `rules`: its fields have their values. Anything else may be sent with them, such as
      the button pressed, or fields of rules that are not on the page. */
  ghost predicate Submits(values: map<string, string>, rules: seq<RuleFile>) {
    forall k: Key | OnPage(rules, k) ::
      && (KeyText(k) in values <==> Emitted(rules, k).Some?)
      && (KeyText(k) in values ==> values[KeyText(k)] == Emitted(rules, k).value)
  }

  // ---------------------------------------------------------------- how a submission is parsed

  function TextValue(values: map<string, string>, key: string): string { if key in values then values[key] else "" }

  function MatcherFromForm(values: map<string, string>, index: nat): MatcherFile {
    var kind := KeyText(Field(index, MatcherType));
    var text := if kind in values then values[kind] else "any";
    if text == "url_glob" then UrlGlobFile(TextValue(values, KeyText(Field(index, MatcherPattern))))
    else if text == "content_type_glob" then
      ContentTypeGlobFile(TextValue(values, KeyText(Field(index, MatcherPattern))))
    else AnyMatcher
  }

  function TargetFromForm(values: map<string, string>, index: nat): TargetFile {
    var kind := KeyText(Field(index, TargetType));
    var text := if kind in values then values[kind] else "body";
    if text == "any" then AnyTarget
    else if text == "all_headers" then AllHeadersFile
    else if text == "header" then HeaderFile(TextValue(values, KeyText(Field(index, TargetName))))
    else if text == "cookies" then CookiesFile
    else BodyFile
  }

  function RuleFromForm(values: map<string, string>, index: nat): RuleFile {
    RuleFile(MatcherFromForm(values, index),
             TextValue(values, KeyText(Field(index, ActionFrom))),
             TextValue(values, KeyText(Field(index, ActionTo))),
             TargetFromForm(values, index),
             KeyText(Field(index, Stop)) in values)
  }

  function NumberValue(values: map<string, string>, key: string, fallback: nat): nat {
    if key !in values then fallback
    else match ParseU64(values[key])
      case None => fallback
      case Some(n) => n
  }

  function CountFromForm(values: map<string, string>, fallback: seq<RuleFile>): nat {
    NumberValue(values, "transform_count", |fallback|)
  }

  function Tabulate<T>(count: nat, f: nat -> T): seq<T> {
    if count == 0 then [] else Tabulate(count - 1, f) + [f(count - 1)]
  }

  lemma {:induction false} TabulateIs<T>(f: nat -> T, s: seq<T>)
    requires forall i: nat | i < |s| :: f(i) == s[i]
    ensures Tabulate(|s|, f) == s
  {
    if s != [] {
      TabulateIs(f, s[..|s| - 1]);
    }
  }

  function RuleParser(values: map<string, string>): nat -> RuleFile { (index: nat) => RuleFromForm(values, index) }

  function ParsedRules(values: map<string, string>, count: nat): seq<RuleFile> { Tabulate(count, RuleParser(values)) }

  method TransformsFromForm(values: map<string, string>, fallback: seq<RuleFile>) returns (rules: seq<RuleFile>)
    ensures rules == ParsedRules(values, CountFromForm(values, fallback))
  {
    var parse := RuleParser(values);
    var count := CountFromForm(values, fallback);
    rules := [];
    for index := 0 to count
      invariant rules == Tabulate(index, parse)
    {
      rules := rules + [parse(index)];
    }
  }

  lemma RuleRoundTrip(values: map<string, string>, rules: seq<RuleFile>, i: nat)
    requires Submits(values, rules) && i < |rules|
    ensures RuleFromForm(values, i) == rules[i]
  {
    MatcherRoundTrip(values, rules, i);
    TargetRoundTrip(values, rules, i);
    assert Emitted(rules, Field(i, ActionFrom)).Some? && Emitted(rules, Field(i, ActionTo)).Some?;
    assert Emitted(rules, Field(i, Stop)).Some? == rules[i].stop;
  }

  lemma MatcherRoundTrip(values: map<string, string>, rules: seq<RuleFile>, i: nat)
    requires Submits(values, rules) && i < |rules|
    ensures MatcherFromForm(values, i) == rules[i].matcher
  {
    assert Emitted(rules, Field(i, MatcherType)) == Some(MatcherTypeValue(rules[i].matcher));
    assert Emitted(rules, Field(i, MatcherPattern)) == Some(MatcherPatternValue(rules[i].matcher));
    assert values[KeyText(Field(i, MatcherType))] == MatcherTypeValue(rules[i].matcher);
  }

  lemma TargetRoundTrip(values: map<string, string>, rules: seq<RuleFile>, i: nat)
    requires Submits(values, rules) && i < |rules|
    ensures TargetFromForm(values, i) == rules[i].target
  {
    assert Emitted(rules, Field(i, TargetType)) == Some(TargetTypeValue(rules[i].target));
    assert Emitted(rules, Field(i, TargetName)) == Some(TargetNameValue(rules[i].target));
    assert values[KeyText(Field(i, TargetType))] == TargetTypeValue(rules[i].target);
  }

  /** Submitting the page for a rule list gives back that list, whatever the fallback and whatever else is sent.
      (No vector in memory has more than U64_MAX elements.) */
  lemma TransformsRoundTrip(values: map<string, string>, rules: seq<RuleFile>, fallback: seq<RuleFile>)
    requires Submits(values, rules) && |rules| <= U64_MAX
    ensures ParsedRules(values, CountFromForm(values, fallback)) == rules
  {
    assert KeyText(TransformCount) in values && values["transform_count"] == Emitted(rules, TransformCount).value;
    DecimalRoundTrip(|rules|);
    forall i: nat | i < |rules| ensures RuleParser(values)(i) == rules[i] { RuleRoundTrip(values, rules, i); }
    TabulateIs(RuleParser(values), rules);
  }

  /** What is not sent, or not known, is read as an `any` matcher and a `body` target, without text and without stop. */
  lemma RuleDefaults(values: map<string, string>, index: nat)
    ensures var rule := RuleFromForm(values, index);
      var matcherType, targetType := KeyText(Field(index, MatcherType)), KeyText(Field(index, TargetType));
      && (matcherType !in values ==> rule.matcher == AnyMatcher)
      && (matcherType in values && values[matcherType] !in ["url_glob", "content_type_glob"] ==>
            rule.matcher == AnyMatcher)
      && (targetType !in values ==> rule.target == BodyFile)
      && (targetType in values && values[targetType] !in ["any", "all_headers", "header", "cookies"] ==>
            rule.target == BodyFile)
      && (KeyText(Field(index, ActionFrom)) !in values ==> rule.from == "")
      && (KeyText(Field(index, ActionTo)) !in values ==> rule.to == "")
      && (rule.stop <==> KeyText(Field(index, Stop)) in values)
  {
    if KeyText(Field(index, MatcherType)) in values {
      var known := ["url_glob", "content_type_glob"];
      assert known[0] == "url_glob" && known[1] == "content_type_glob";
    }
    if KeyText(Field(index, TargetType)) in values {
      var known := ["any", "all_headers", "header", "cookies"];
      assert known[0] == "any" && known[1] == "all_headers" && known[2] == "header" && known[3] == "cookies";
    }
  }

  /** How the fields that are sent are read, by their names and values. */
  lemma RuleReads(values: map<string, string>, i: nat)
    ensures var rule := RuleFromForm(values, i);
      var kind := TextValue(values, OwnedName(i, "matcher_type"));
      var target := TextValue(values, OwnedName(i, "target_type"));
      && (kind == "url_glob" ==> rule.matcher == UrlGlobFile(TextValue(values, OwnedName(i, "matcher_pattern"))))
      && (kind == "content_type_glob" ==>
            rule.matcher == ContentTypeGlobFile(TextValue(values, OwnedName(i, "matcher_pattern"))))
      && rule.from == TextValue(values, OwnedName(i, "action_from"))
      && rule.to == TextValue(values, OwnedName(i, "action_to"))
      && (target == "any" ==> rule.target == AnyTarget) && (target == "all_headers" ==> rule.target == AllHeadersFile)
      && (target == "cookies" ==> rule.target == CookiesFile) && (target == "body" ==> rule.target == BodyFile)
      && (target == "header" ==> rule.target == HeaderFile(TextValue(values, OwnedName(i, "target_name"))))
      && (rule.stop <==> OwnedName(i, "stop") in values)
  {
    assert KeyText(Field(i, MatcherType)) == OwnedName(i, "matcher_type");
    assert KeyText(Field(i, MatcherPattern)) == OwnedName(i, "matcher_pattern");
    assert KeyText(Field(i, TargetType)) == OwnedName(i, "target_type");
    assert KeyText(Field(i, TargetName)) == OwnedName(i, "target_name");
  }

  /** The number of rules is the count that was sent; without one that is a number, it is that of the fallback. */
  lemma CountIff(values: map<string, string>, fallback: seq<RuleFile>, n: nat)
    ensures "transform_count" !in values ==> CountFromForm(values, fallback) == |fallback|
    ensures "transform_count" in values && ParseU64(values["transform_count"]).None? ==>
              CountFromForm(values, fallback) == |fallback|
    ensures "transform_count" in values && n <= U64_MAX && (Writes(values["transform_count"], "", n)
                                                           || Writes(values["transform_count"], "+", n)) ==>
              CountFromForm(values, fallback) == n
  {
    if "transform_count" in values { ParseU64Iff(values["transform_count"], n); }
  }

  lemma {:induction false} TabulateAt<T>(count: nat, f: nat -> T, i: nat)
    requires i < count
    ensures |Tabulate(count, f)| == count && Tabulate(count, f)[i] == f(i)
  {
    if count > 1 { TabulateAt(count - 1, f, if i < count - 1 then i else 0); }
  }

  /** As many rules as the count says, each read from the fields of its own index. */
  lemma ParsedAt(values: map<string, string>, count: nat, i: nat)
    requires i < count
    ensures |ParsedRules(values, count)| == count && ParsedRules(values, count)[i] == RuleFromForm(values, i)
  {
    TabulateAt(count, RuleParser(values), i);
  }

  function AllKeys(rules: seq<RuleFile>): set<Key> {
    {TransformCount} + set i, s: Suffix | 0 <= i < |rules| :: Field(i, s)
  }

  lemma KeyTextsInjective()
    ensures forall a: Key, b: Key :: KeyText(a) == KeyText(b) ==> a == b
  {
    forall a: Key, b: Key | KeyText(a) == KeyText(b) ensures a == b { KeyTextInjective(a, b); }
  }

  /** The form as rendered: one field per key, none hiding another. */
  ghost function Rendered(rules: seq<RuleFile>): (values: map<string, string>)
    ensures Submits(values, rules)
  {
    KeyTextsInjective();
    map k | k in AllKeys(rules) && Emitted(rules, k).Some? :: KeyText(k) := Emitted(rules, k).value
  }

  // ---------------------------------------------------------------- comma-separated lists

  function TrimAll(parts: seq<string>): seq<string> {
    if parts == [] then []
    else
      var part := Trim(parts[0]);
      (if part == "" then [] else [part]) + TrimAll(parts[1..])
  }

  /** `comma_list` of a submitted value. */
  function CommaList(raw: string): seq<string> { TrimAll(SplitOn(raw, ',')) }

  /** A list without comma has one entry, trimmed, or none if it is blank. */
  lemma CommaListOne(raw: string)
    requires ',' !in raw
    ensures CommaList(raw) == if Trim(raw) == "" then [] else [Trim(raw)]
  {
    SplitOnPlain(raw, ',');
    assert [raw][1..] == [];
    assert TrimAll([raw][1..]) == [];
  }

  /** A comma separates lists. */
  lemma CommaListMore(head: string, rest: string)
    requires ',' !in head
    ensures CommaList(head + ([','] + rest)) == CommaList(head) + CommaList(rest)
  {
    SplitOnHead(head, rest, ',');
    var parts := SplitOn(rest, ',');
    assert ([head] + parts)[1..] == parts;
    CommaListOne(head);
  }

  /** An entry that survives being joined with commas and parsed back. */
  predicate Plain(entry: string) { entry != "" && Trimmed(entry) && ',' !in entry }

  predicate AllPlain(entries: seq<string>) { forall i | 0 <= i < |entries| :: Plain(entries[i]) }

  lemma TrimmedIsPlain(part: string)
    requires ',' !in part && Trim(part) != ""
    ensures Plain(Trim(part))
  {
  }

  lemma PlainCons(entry: string, entries: seq<string>)
    requires Plain(entry) && AllPlain(entries)
    ensures AllPlain([entry] + entries)
  {
  }

  lemma {:induction false} TrimAllPlain(parts: seq<string>)
    requires forall i | 0 <= i < |parts| :: ',' !in parts[i]
    ensures AllPlain(TrimAll(parts))
  {
    if parts != [] {
      TrimAllPlain(parts[1..]);
      var rest := TrimAll(parts[1..]);
      if Trim(parts[0]) == "" {
        assert [] + rest == rest;
      } else {
        TrimmedIsPlain(parts[0]);
        PlainCons(Trim(parts[0]), rest);
      }
    }
  }

  lemma {:induction false} TrimAllFixed(parts: seq<string>)
    requires forall i | 0 <= i < |parts| :: parts[i] != "" && Trim(parts[i]) == parts[i]
    ensures TrimAll(parts) == parts
  {
    if parts != [] {
      TrimAllFixed(parts[1..]);
      assert parts == [parts[0]] + parts[1..];
    }
  }

  lemma {:induction false} SplitOfJoin(entries: seq<string>)
    requires AllPlain(entries) && entries != []
    ensures SplitOn(Join(entries, ","), ',') == entries
  {
    if |entries| == 1 {
      SplitOnPlain(entries[0], ',');
    } else {
      var rest := Join(entries[1..], ",");
      assert entries[0] + "," + rest == entries[0] + ([','] + rest);
      SplitOnHead(entries[0], rest, ',');
      SplitOfJoin(entries[1..]);
    }
  }

  lemma PlainTrims(entries: seq<string>)
    requires AllPlain(entries)
    ensures TrimAll(entries) == entries
  {
    forall i | 0 <= i < |entries| ensures entries[i] != "" && Trim(entries[i]) == entries[i] {
      assert Plain(entries[i]);
    }
    TrimAllFixed(entries);
  }

  lemma EmptyList()
    ensures CommaList("") == []
  {
    assert SplitOn("", ',') == [""] && [""][1..] == [];
    assert TrimAll([""][1..]) == [];
  }

  /** A list comes back from its comma-separated form exactly if each entry is trimmed, not empty and without comma. */
  lemma CommaListRoundTrip(entries: seq<string>)
    ensures CommaList(Join(entries, ",")) == entries <==> AllPlain(entries)
  {
    TrimAllPlain(SplitOn(Join(entries, ","), ','));
    if AllPlain(entries) {
      if entries == [] {
        EmptyList();
      } else {
        SplitOfJoin(entries);
        PlainTrims(entries);
      }
    }
  }

  /** Parsing, joining and parsing again is parsing once, for every text. */
  lemma ParseJoinParse(raw: string)
    ensures CommaList(Join(CommaList(raw), ",")) == CommaList(raw)
  {
    TrimAllPlain(SplitOn(raw, ','));
    CommaListRoundTrip(CommaList(raw));
  }
}
