/** `HeaderMap` as an ordered multimap, and the removal of hop-by-hop headers (src/capture.rs). */
module Headers {
  import opened Common
  import opened Text

  // ---------------------------------------------------------------- names and values

  predicate IsTokenChar(c: char) {
    var n := c as int;  // ! # $ % & ' * + - . 0-9 ^ _ ` a-z | ~
    n == 33 || 35 <= n <= 39 || n == 42 || n == 43 || n == 45 || n == 46
    || 48 <= n <= 57 || 94 <= n <= 122 || n == 124 || n == 126
  }

  predicate IsHeaderName(s: string) {
    0 < |s| <= 65535 && forall i | 0 <= i < |s| :: IsTokenChar(s[i])
  }

  /** The characters of a token (section 5.6.2 of RFC 9110), without upper case. */
  lemma TokenCharIff(c: char)
    ensures IsTokenChar(c) <==> '0' <= c <= '9' || 'a' <= c <= 'z' || c in "!#$%&'*+-.^_`|~"
  {
    var others := "!#$%&'*+-.^_`|~";
    assert others[0] == '!' && others[1] == '#' && others[2] == '$' && others[3] == '%' && others[4] == '&';
    assert others[5] == '\'' && others[6] == '*' && others[7] == '+' && others[8] == '-' && others[9] == '.';
    assert others[10] == '^' && others[11] == '_' && others[12] == '`' && others[13] == '|' && others[14] == '~';
  }

  /** Header names are kept in lower case. */
  type HeaderName = s: string | IsHeaderName(s) witness "a"

  type HeaderValue = seq<byte>

  predicate IsVisible(b: byte) { 32 <= b < 127 || b == 9 }

  /** `HeaderValue::to_str`: only visible ASCII is text. */
  function ToStr(v: HeaderValue): Option<string> {
    if forall i | 0 <= i < |v| :: IsVisible(v[i])
    then Some(seq(|v|, i requires 0 <= i < |v| => v[i] as char))
    else None
  }

  /** `HeaderValue::from_str`: no control characters, though any other character is let through as UTF-8. */
  function FromStr(s: string): Option<HeaderValue> {
    var bytes := Encode(s);
    if AllowedBytes(bytes) then Some(bytes) else None
  }

  predicate AllowedByte(b: byte) { b == 9 || (b >= 32 && b != 127) }

  predicate AllowedBytes(bytes: seq<byte>) { forall i | 0 <= i < |bytes| :: AllowedByte(bytes[i]) }

  lemma AllowedConcat(a: seq<byte>, b: seq<byte>)
    ensures AllowedBytes(a + b) <==> AllowedBytes(a) && AllowedBytes(b)
  {
    assert AllowedBytes(a + b) ==> forall i | 0 <= i < |a| :: (a + b)[i] == a[i];
    assert AllowedBytes(a + b) ==> forall i | 0 <= i < |b| :: (a + b)[|a| + i] == b[i];
  }

  lemma {:induction false} AllowedIff(s: string)
    ensures AllowedBytes(Encode(s)) <==> !HasControl(s)
  {
    if s != "" {
      AllowedIff(s[1..]);
      AllowedConcat(EncodeChar(s[0]), Encode(s[1..]));
      AllowedChar(s[0]);
      assert s == [s[0]] + s[1..];
      HasControlConcat([s[0]], s[1..]);
      assert HasControl([s[0]]) <==> IsControl(s[0]) by { assert [s[0]][0] == s[0]; }
    }
  }

  lemma AllowedChar(c: char)
    ensures AllowedBytes(EncodeChar(c)) <==> !IsControl(c)
  {
    if c as int < 0x80 {
      assert EncodeChar(c) == [c as int];
      assert AllowedBytes([c as int]) <==> AllowedByte([c as int][0]);
    }
  }

  /** A text can be stored in a header exactly if it holds no control character other than tab. */
  lemma FromStrIff(s: string)
    ensures FromStr(s).Some? <==> !HasControl(s)
  {
    AllowedIff(s);
  }

  lemma ToStrNoControl(v: HeaderValue)
    requires ToStr(v).Some?
    ensures !HasControl(ToStr(v).value)
  {
  }

  /** A readable value is rebuilt from its text unchanged. */
  lemma FromStrOfToStr(v: HeaderValue)
    requires ToStr(v).Some?
    ensures FromStr(ToStr(v).value) == Some(v)
  {
    var s := ToStr(v).value;
    EncodeAscii(s);
    assert Encode(s) == v;
  }

  /** Text of visible ASCII characters and tabs survives being stored in a header. */
  lemma ToStrOfFromStr(s: string)
    requires forall i | 0 <= i < |s| :: 32 <= s[i] as int < 127 || s[i] as int == 9
    ensures FromStr(s).Some? && ToStr(FromStr(s).value) == Some(s)
  {
    EncodeAscii(s);
    var v := Encode(s);
    assert forall i | 0 <= i < |v| :: IsVisible(v[i]);
    assert ToStr(v).value == s;
  }

  // ---------------------------------------------------------------- the multimap

  datatype Field = Field(name: HeaderName, value: HeaderValue)

  type Fields = seq<Field>

  /** The values stored under one name, in order. */
  function GetAll(h: Fields, name: string): seq<HeaderValue> {
    if h == [] then []
    else if h[0].name == name then [h[0].value] + GetAll(h[1..], name)
    else GetAll(h[1..], name)
  }

  /** `HeaderMap::get`: the first value. */
  function Get(h: Fields, name: string): Option<HeaderValue> {
    var values := GetAll(h, name);
    if values == [] then None else Some(values[0])
  }

  function Without(h: Fields, names: set<string>): (r: Fields)
    ensures forall f | f in r :: f in h && f.name !in names
  {
    if h == [] then []
    else if h[0].name in names then Without(h[1..], names)
    else [h[0]] + Without(h[1..], names)
  }

  /** `HeaderMap::insert`: the new value takes the place of every old one. */
  function Inserted(h: Fields, name: HeaderName, value: HeaderValue): Fields {
    Without(h, {name}) + [Field(name, value)]
  }

  lemma GetAllCons(f: Field, rest: Fields, name: string)
    ensures GetAll([f] + rest, name) == (if f.name == name then [f.value] else []) + GetAll(rest, name)
  {
    assert ([f] + rest)[0] == f && ([f] + rest)[1..] == rest;
  }

  lemma {:induction false} GetAllConcat(a: Fields, b: Fields, name: string)
    ensures GetAll(a + b, name) == GetAll(a, name) + GetAll(b, name)
  {
    if a == [] {
      assert a + b == b;
    } else {
      GetAllConcat(a[1..], b, name);
      GetAllCons(a[0], a[1..], name);
      GetAllCons(a[0], a[1..] + b, name);
      assert a + b == [a[0]] + (a[1..] + b) && a == [a[0]] + a[1..];
    }
  }

  lemma {:induction false} GetAllWithout(h: Fields, names: set<string>, name: string)
    ensures GetAll(Without(h, names), name) == if name in names then [] else GetAll(h, name)
  {
    if h != [] {
      GetAllWithout(h[1..], names, name);
    }
  }

  lemma GetAllInserted(h: Fields, name: HeaderName, value: HeaderValue, other: string)
    ensures GetAll(Inserted(h, name, value), other) == if other == name then [value] else GetAll(h, other)
  {
    GetAllConcat(Without(h, {name}), [Field(name, value)], other);
    GetAllWithout(h, {name}, other);
  }

  lemma {:induction false} GetAllMember(h: Fields, name: HeaderName, value: HeaderValue)
    ensures value in GetAll(h, name) <==> Field(name, value) in h
  {
    if h != [] {
      GetAllMember(h[1..], name, value);
      assert h == [h[0]] + h[1..];
    }
  }

  lemma {:induction false} WithoutTwice(h: Fields, a: set<string>, b: set<string>)
    ensures Without(Without(h, a), b) == Without(h, a + b)
  {
    if h != [] {
      WithoutTwice(h[1..], a, b);
    }
  }

  lemma {:induction false} WithoutNothing(h: Fields, names: set<string>)
    requires forall f | f in h :: f.name !in names
    ensures Without(h, names) == h
  {
    if h != [] {
      WithoutNothing(h[1..], names);
    }
  }

  /** The header map as the program holds it: mutated in place. */
  class HeaderMap {
    var fields: Fields

    constructor (fields: Fields)
      ensures this.fields == fields
    {
      this.fields := fields;
    }

    method Clear()
      modifies this
      ensures fields == []
    {
      fields := [];
    }

    method Append(name: HeaderName, value: HeaderValue)
      modifies this
      ensures fields == old(fields) + [Field(name, value)]
    {
      fields := fields + [Field(name, value)];
    }

    method Remove(name: string)
      modifies this
      ensures fields == Without(old(fields), {name})
    {
      fields := Without(fields, {name});
    }

    method Insert(name: HeaderName, value: HeaderValue)
      modifies this
      ensures fields == Inserted(old(fields), name, value)
    {
      fields := Without(fields, {name}) + [Field(name, value)];
    }
  }

  // ---------------------------------------------------------------- hop-by-hop headers

  const HOP_BY_HOP: seq<string> := [
    "connection", "proxy-authenticate", "proxy-authorization", "te",
    "trailer", "transfer-encoding", "upgrade", "keep-alive"]

  function Normalized(parts: seq<string>): (r: seq<string>)
    ensures |r| == |parts| && forall i | 0 <= i < |parts| :: r[i] == Lower(Trim(parts[i]))
  {
    seq(|parts|, i requires 0 <= i < |parts| => Lower(Trim(parts[i])))
  }

  function NonEmpty(tokens: seq<string>): seq<string> {
    if tokens == [] then []
    else (if tokens[0] == "" then [] else [tokens[0]]) + NonEmpty(tokens[1..])
  }

  function NormalizeTokens(parts: seq<string>): seq<string> { NonEmpty(Normalized(parts)) }

  /** The header names listed in the first `Connection` value, when it is text. */
  function ConnectionTokens(h: Fields): seq<string> { TokensOf(Get(h, "connection")) }

  function TokensOf(value: Option<HeaderValue>): seq<string> {
    if value.None? || ToStr(value.value).None? then [] else NormalizeTokens(SplitOn(ToStr(value.value).value, ','))
  }

  const CONNECTION: HeaderName := "connection"

  function HopNames(h: Fields): set<string> {
    (set t | t in ConnectionTokens(h)) + (set n | n in HOP_BY_HOP)
  }

  /** A forwarded message keeps the fields that are not about this hop. */
  function Stripped(h: Fields): Fields { Without(h, HopNames(h)) }

  method RemoveAll(headers: HeaderMap, names: seq<string>)
    modifies headers
    ensures headers.fields == Without(old(headers.fields), set n | n in names)
  {
    ghost var start := headers.fields;
    ghost var gone: set<string> := {};
    WithoutNothing(start, gone);
    for i := 0 to |names|
      invariant gone == set n | n in names[..i]
      invariant headers.fields == Without(start, gone)
    {
      WithoutTwice(start, gone, {names[i]});
      if IsHeaderName(names[i]) {
        headers.Remove(names[i]);
      } else {
        NoSuchName(headers.fields, names[i]);
      }
      gone := gone + {names[i]};
    }
    assert names[..|names|] == names;
  }

  method StripHopByHopHeaders(headers: HeaderMap)
    modifies headers
    ensures headers.fields == Stripped(old(headers.fields))
  {
    ghost var start := headers.fields;
    var tokens := ConnectionTokens(headers.fields);
    RemoveAll(headers, tokens);
    RemoveAll(headers, HOP_BY_HOP);
    WithoutTwice(start, set t | t in tokens, set n | n in HOP_BY_HOP);
  }

  /** A token that is no header name names no field, so skipping it loses nothing. */
  lemma NoSuchName(h: Fields, token: string)
    requires !IsHeaderName(token)
    ensures Without(h, {token}) == h
  {
    WithoutNothing(h, {token});
  }

  lemma {:induction false} NonEmptyIff(tokens: seq<string>, token: string)
    ensures token in NonEmpty(tokens) <==> token != "" && token in tokens
  {
    if tokens != [] {
      NonEmptyIff(tokens[1..], token);
      assert tokens == [tokens[0]] + tokens[1..];
    }
  }

  predicate AmongParts(parts: seq<string>, token: string) {
    exists i | 0 <= i < |parts| :: Lower(Trim(parts[i])) == token
  }

  /** A token is listed exactly if some part between commas is that token, up to case and surrounding white space. */
  lemma TokenIff(parts: seq<string>, token: string)
    ensures token in NormalizeTokens(parts)
       <==> token != "" && AmongParts(parts, token)
  {
    NonEmptyIff(Normalized(parts), token);
    var tokens := Normalized(parts);
    if token in tokens {
      var i :| 0 <= i < |tokens| && tokens[i] == token;
      assert Lower(Trim(parts[i])) == token;
    }
    if i :| 0 <= i < |parts| && Lower(Trim(parts[i])) == token {
      assert tokens[i] == token;
    }
  }

  /** The value is readable and lists the token between its commas. */
  ghost predicate Lists(value: HeaderValue, token: string) {
    && token != "" && ToStr(value).Some?
    && AmongParts(SplitOn(ToStr(value).value, ','), token)
  }

  lemma ListsIff(value: HeaderValue, token: string)
    ensures token in TokensOf(Some(value)) <==> Lists(value, token)
  {
    if ToStr(value).Some? { TokenIff(SplitOn(ToStr(value).value, ','), token); }
  }

  /** Which tokens the Connection field lists: those of its first value. */
  lemma ConnectionTokensIff(h: Fields, token: string)
    ensures var values := GetAll(h, "connection");
      token in ConnectionTokens(h) <==> values != [] && Lists(values[0], token)
  {
    var values := GetAll(h, "connection");
    if values != [] { ListsIff(values[0], token); }
  }

  /** The names that section 7.6.1 of RFC 9110 and its predecessors reserve for one hop. */
  predicate ForOneHop(name: string) {
    || name == "connection" || name == "keep-alive" || name == "te" || name == "trailer" || name == "upgrade"
    || name == "transfer-encoding" || name == "proxy-authenticate" || name == "proxy-authorization"
  }

  lemma HopByHopIff(name: string)
    ensures name in HOP_BY_HOP <==> ForOneHop(name)
  {
    assert HOP_BY_HOP[0] == "connection" && HOP_BY_HOP[1] == "proxy-authenticate";
    assert HOP_BY_HOP[2] == "proxy-authorization" && HOP_BY_HOP[3] == "te" && HOP_BY_HOP[4] == "trailer";
    assert HOP_BY_HOP[5] == "transfer-encoding" && HOP_BY_HOP[6] == "upgrade" && HOP_BY_HOP[7] == "keep-alive";
  }

  /** What stripping leaves, name by name. */
  lemma StrippedValues(h: Fields, name: string)
    ensures GetAll(Stripped(h), name)
         == if name in ConnectionTokens(h) || ForOneHop(name) then [] else GetAll(h, name)
  {
    HopByHopIff(name);
    GetAllWithout(h, HopNames(h), name);
  }

  lemma NoConnectionLeft(h: Fields)
    ensures ConnectionTokens(Stripped(h)) == []
  {
    assert ForOneHop("connection");
    StrippedValues(h, "connection");
  }

  lemma NothingMoreToRemove(h: Fields, gone: set<string>, names: set<string>)
    requires names <= gone
    ensures Without(Without(h, gone), names) == Without(h, gone)
  {
    WithoutNothing(Without(h, gone), names);
  }

  /** Stripping a stripped message changes nothing. */
  lemma StrippedTwice(h: Fields)
    ensures Stripped(Stripped(h)) == Stripped(h)
  {
    NoConnectionLeft(h);
    NothingMoreToRemove(h, HopNames(h), HopNames(Stripped(h)));
  }

  lemma NameIsNormal(name: HeaderName)
    ensures Trimmed(name) && Lower(name) == name && ',' !in name
  {
    assert forall i | 0 <= i < |name| :: IsTokenChar(name[i]);
  }

  lemma OneToken(token: string)
    requires token != "" && Trim(token) == token && Lower(token) == token
    ensures NormalizeTokens([token]) == [token]
  {
    assert Normalized([token]) == [token];
    assert NonEmpty([token]) == [token] + NonEmpty([]);
  }

  /** A header name is the one token of the value that consists of it. */
  lemma NameIsToken(name: HeaderName)
    ensures NormalizeTokens(SplitOn(name, ',')) == [name]
  {
    NameIsNormal(name);
    SplitOnPlain(name, ',');
    OneToken(name);
  }

  lemma NameIsText(name: HeaderName)
    ensures ToStr(Encode(name)) == Some(name)
  {
    assert forall i | 0 <= i < |name| :: IsTokenChar(name[i]);
    ToStrOfFromStr(name);
  }

  /** A first Connection value without names, a second that lists `name`, and a field of that name. */
  function TwoConnections(name: HeaderName, value: HeaderValue): Fields {
    [Field(CONNECTION, []), Field(CONNECTION, Encode(name)), Field(name, value)]
  }

  lemma TwoConnectionValues(connection: string, name: HeaderName, value: HeaderValue)
    requires connection == CONNECTION && name != connection
    ensures GetAll(TwoConnections(name, value), connection) == [[], Encode(name)]
    ensures GetAll(TwoConnections(name, value), name) == [value]
  {
    GetAllThree(TwoConnections(name, value), connection);
    GetAllThree(TwoConnections(name, value), name);
  }

  lemma KeptBehindEmpty(h: Fields, name: string)
    requires Get(h, "connection") == Some([]) && !ForOneHop(name)
    ensures GetAll(Stripped(h), name) == GetAll(h, name)
  {
    EmptyConnection(h);
    StrippedValues(h, name);
  }

  lemma NotConnection(name: string)
    requires !ForOneHop(name)
    ensures name != "connection"
  {
  }

  /** Only the first Connection value is read: a name that only a second one lists is forwarded. */
  lemma SecondConnectionIgnored(name: HeaderName, value: HeaderValue)
    requires !ForOneHop(name)
    ensures GetAll(TwoConnections(name, value), "connection") == [[], Encode(name)]
    ensures ToStr(Encode(name)) == Some(name) && NormalizeTokens(SplitOn(name, ',')) == [name]
    ensures GetAll(Stripped(TwoConnections(name, value)), name) == [value]
  {
    NameIsText(name);
    NameIsToken(name);
    NotConnection(name);
    TwoConnectionValues("connection", name, value);
    KeptBehindEmpty(TwoConnections(name, value), name);
  }

  lemma GetAllThree(h: Fields, name: string)
    requires |h| == 3
    ensures GetAll(h, name) == (if h[0].name == name then [h[0].value] else [])
                             + (if h[1].name == name then [h[1].value] else [])
                             + (if h[2].name == name then [h[2].value] else [])
  {
    assert h[1..][0] == h[1] && h[1..][1..][0] == h[2] && h[1..][1..][1..] == [];
    assert GetAll(h[1..][1..], name) == if h[2].name == name then [h[2].value] else [];
    assert GetAll(h[1..], name)
        == (if h[1].name == name then [h[1].value] else []) + (if h[2].name == name then [h[2].value] else []);
  }

  lemma EmptyConnection(h: Fields)
    requires Get(h, "connection") == Some([])
    ensures ConnectionTokens(h) == []
  {
    assert ToStr([]).value == "" && SplitOn("", ',') == [""] && Lower(Trim("")) == "";
    assert Normalized([""]) == [""] && [""][1..] == [];
    assert NonEmpty([""]) == [] + NonEmpty([]);
  }
}
