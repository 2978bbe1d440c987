/**
 The Sec-WebSocket-Extensions header (section 9.1 of RFC 6455): its grammar as syntax trees,
 reading it from the front of a string, and the two agreeing on every string.
 A string stands for octets: its characters are those below U+0100.
 */
module ExtensionSyntax {
  import opened Octets

  /** Names and token values in lower case. */
  datatype Parameter = Parameter(name: string, value: string, hasValue: bool)

  datatype Offer = Offer(name: string, parameters: seq<Parameter>)

  predicate IsTokenCharacter(c: char) {
    || '0' <= c <= '9' || 'A' <= c <= 'Z' || 'a' <= c <= 'z'
    || c in "!#$%&'*+-.^_`|~"
  }

  predicate IsWhitespace(c: char) { c == ' ' || c == '\t' }

  /** A token is made of visible ASCII other than the separators (section 2.2 of RFC 2616). */
  lemma TokensHaveNoSeparators(c: char)
    ensures IsTokenCharacter(c) <==> '!' <= c <= '~' && c !in "\"(),/:;<=>?@[\\]{}"
  {
    var separators := "\"(),/:;<=>?@[\\]{}";
    assert forall i | 0 <= i < |separators| :: !IsTokenCharacter(separators[i]);
  }

  /** A character that stands for itself between quotes. */
  predicate IsQuotable(c: char) {
    c == '\t' || c == ' ' || c == '!' || '\U{23}' <= c <= '\U{5b}' || ('\U{5d}' <= c && c != '\U{7f}')
  }

  predicate IsEscapable(c: char) { c >= '\U{20}' && c != '\U{7f}' }

  /** Whatever may be escaped may stand for itself, except the quote and the backslash; and so may a tab. */
  lemma QuotableUnlessSpecial(c: char)
    ensures IsQuotable(c) <==> (IsEscapable(c) || c == '\t') && c != '"' && c != '\\'
    ensures IsEscapable(c) <==> !(c < ' ' || c == '\U{7f}')
  {
  }

  function LowerCharacter(c: char): char {
    if 'A' <= c <= 'Z' then c - 'A' + 'a' else c
  }

  function Lower(s: string): (t: string)
    ensures |t| == |s|
  {
    seq(|s|, i requires 0 <= i < |s| => LowerCharacter(s[i]))
  }

  predicate AllWhitespace(s: string) { forall i | 0 <= i < |s| :: IsWhitespace(s[i]) }

  predicate IsToken(s: string) { s != [] && forall i | 0 <= i < |s| :: IsTokenCharacter(s[i]) }

  // ----- the grammar

  datatype QuotedItem = Plain(c: char) | Escaped(c: char)

  datatype ValueSyntax =
    | NoValue
    | TokenValue(space: string, token: string)
    | QuotedValue(space: string, items: seq<QuotedItem>)

  /** `gap ; before name after [= value]` */
  datatype ParameterSyntax = ParameterSyntax(gap: string, before: string, name: string, after: string, value: ValueSyntax)

  /** `lead name parameters trail` */
  datatype OfferSyntax = OfferSyntax(lead: string, name: string, parameters: seq<ParameterSyntax>, trail: string)

  predicate ValidItem(q: QuotedItem) {
    match q case Plain(c) => IsQuotable(c) case Escaped(c) => IsEscapable(c)
  }

  predicate ValidItems(items: seq<QuotedItem>) {
    items != [] ==> ValidItem(items[0]) && ValidItems(items[1..])
  }

  predicate ValidValue(v: ValueSyntax) {
    match v
    case NoValue => true
    case TokenValue(space, token) => AllWhitespace(space) && IsToken(token)
    case QuotedValue(space, items) => AllWhitespace(space) && ValidItems(items)
  }

  predicate ValidParameter(p: ParameterSyntax) {
    AllWhitespace(p.gap) && AllWhitespace(p.before) && IsToken(p.name) && AllWhitespace(p.after) && ValidValue(p.value)
  }

  predicate ValidOffer(o: OfferSyntax) {
    && AllWhitespace(o.lead) && IsToken(o.name) && AllWhitespace(o.trail)
    && forall i | 0 <= i < |o.parameters| :: ValidParameter(o.parameters[i])
  }

  predicate ValidOffers(os: seq<OfferSyntax>) {
    forall i | 0 <= i < |os| :: ValidOffer(os[i])
  }

  // Writing a piece of syntax in front of what follows it, `x`.

  function WriteItems(items: seq<QuotedItem>, x: string): string {
    if items == [] then "\"" + x
    else match items[0]
      case Plain(c) => [c] + WriteItems(items[1..], x)
      case Escaped(c) => ['\\'] + ([c] + WriteItems(items[1..], x))
  }

  function WriteValue(v: ValueSyntax, x: string): string {
    match v
    case NoValue => x
    case TokenValue(space, token) => "=" + (space + (token + x))
    case QuotedValue(space, items) => "=" + (space + ("\"" + WriteItems(items, x)))
  }

  function WriteParameter(p: ParameterSyntax, x: string): string {
    p.gap + (";" + (p.before + (p.name + (p.after + WriteValue(p.value, x)))))
  }

  function WriteParameters(ps: seq<ParameterSyntax>, x: string): string {
    if ps == [] then x else WriteParameter(ps[0], WriteParameters(ps[1..], x))
  }

  function WriteOffer(o: OfferSyntax, x: string): string {
    o.lead + (o.name + WriteParameters(o.parameters, o.trail + x))
  }

  /** Offers are separated by commas. */
  function WriteOffers(os: seq<OfferSyntax>): string {
    if os == [] then "" else WriteOffer(os[0], if |os| == 1 then "" else "," + WriteOffers(os[1..]))
  }

  function ItemsMeaning(items: seq<QuotedItem>): string {
    if items == [] then "" else [items[0].c] + ItemsMeaning(items[1..])
  }

  function ParameterMeaning(p: ParameterSyntax): Parameter {
    match p.value
    case NoValue => Parameter(Lower(p.name), "", false)
    case TokenValue(_, token) => Parameter(Lower(p.name), Lower(token), true)
    case QuotedValue(_, items) => Parameter(Lower(p.name), ItemsMeaning(items), true)
  }

  function ParametersMeaning(ps: seq<ParameterSyntax>): seq<Parameter> {
    if ps == [] then [] else [ParameterMeaning(ps[0])] + ParametersMeaning(ps[1..])
  }

  function OfferMeaning(o: OfferSyntax): Offer {
    Offer(Lower(o.name), ParametersMeaning(o.parameters))
  }

  function OffersMeaning(os: seq<OfferSyntax>): seq<Offer> {
    if os == [] then [] else [OfferMeaning(os[0])] + OffersMeaning(os[1..])
  }

  /** The header `s` is written by the grammar and means `offers`. A blank header means none. */
  ghost predicate Derives(s: string, offers: seq<Offer>) {
    || (AllWhitespace(s) && offers == [])
    || exists os: seq<OfferSyntax> :: os != [] && ValidOffers(os) && WriteOffers(os) == s && OffersMeaning(os) == offers
  }

  // ----- reading from the front

  function SkipWhitespace(s: string): (r: string)
    ensures |r| <= |s| && (r != [] ==> !IsWhitespace(r[0]))
  {
    if s != [] && IsWhitespace(s[0]) then SkipWhitespace(s[1..]) else s
  }

  /** Length of the longest run of token characters at the front. */
  function TokenLength(s: string): (n: nat)
    ensures n <= |s|
  {
    if s != [] && IsTokenCharacter(s[0]) then 1 + TokenLength(s[1..]) else 0
  }

  /** What was read, and the rest. */
  datatype Read<T> = Fails | Reads(value: T, rest: string)

  function ReadToken(s: string): Read<string> {
    var n := TokenLength(s);
    if n == 0 then Fails else Reads(Lower(s[..n]), s[n..])
  }

  /** After the opening quote, up to the closing one. */
  function ReadQuoted(s: string): Read<string>
    decreases |s|
  {
    if s == [] then Fails
    else if s[0] == '"' then Reads("", s[1..])
    else
      var escaped := s[0] == '\\';
      if escaped && |s| == 1 then Fails
      else
        var c := if escaped then s[1] else s[0];
        if !(if escaped then IsEscapable(c) else IsQuotable(c)) then Fails
        else match ReadQuoted(if escaped then s[2..] else s[1..])
          case Fails => Fails
          case Reads(value, rest) => Reads([c] + value, rest)
  }

  /** After the equals sign. */
  function ReadValue(s: string): Read<string> {
    var t := SkipWhitespace(s);
    if t != [] && t[0] == '"' then ReadQuoted(t[1..]) else ReadToken(t)
  }

  /** After the semicolon. */
  function ReadParameter(s: string): Read<Parameter> {
    match ReadToken(SkipWhitespace(s))
    case Fails => Fails
    case Reads(name, rest) =>
      var t := SkipWhitespace(rest);
      if t == [] || t[0] != '=' then Reads(Parameter(name, "", false), t)
      else match ReadValue(t[1..])
        case Fails => Fails
        case Reads(value, rest') => Reads(Parameter(name, value, true), rest')
  }

  lemma ReadTokenShrinks(s: string)
    ensures ReadToken(s).Reads? ==> |ReadToken(s).rest| < |s|
  {
  }

  lemma {:induction false} ReadQuotedShrinks(s: string)
    ensures ReadQuoted(s).Reads? ==> |ReadQuoted(s).rest| < |s|
    decreases |s|
  {
    if s != [] && s[0] != '"' && !(s[0] == '\\' && |s| == 1) {
      ReadQuotedShrinks(if s[0] == '\\' then s[2..] else s[1..]);
    }
  }

  lemma ReadParameterShrinks(s: string)
    ensures ReadParameter(s).Reads? ==> |ReadParameter(s).rest| < |s|
  {
    var t := SkipWhitespace(s);
    ReadTokenShrinks(t);
    if ReadToken(t).Reads? {
      var u := SkipWhitespace(ReadToken(t).rest);
      if u != [] && u[0] == '=' {
        var v := SkipWhitespace(u[1..]);
        ReadTokenShrinks(v);
        if v != [] {
          ReadQuotedShrinks(v[1..]);
        }
      }
    }
  }

  /** Parameters up to a comma or the end. */
  function ReadParameters(s: string): Read<seq<Parameter>>
    decreases |s|
  {
    var t := SkipWhitespace(s);
    if t == [] || t[0] == ',' then Reads([], t)
    else if t[0] != ';' then Fails
    else
      ReadParameterShrinks(t[1..]);
      match ReadParameter(t[1..])
      case Fails => Fails
      case Reads(parameter, rest) =>
        match ReadParameters(rest)
        case Fails => Fails
        case Reads(parameters, rest') => Reads([parameter] + parameters, rest')
  }

  function ReadOffer(s: string): Read<Offer> {
    match ReadToken(s)
    case Fails => Fails
    case Reads(name, rest) =>
      match ReadParameters(rest)
      case Fails => Fails
      case Reads(parameters, rest') => Reads(Offer(name, parameters), rest')
  }

  lemma {:induction false} ReadParametersEnd(s: string)
    ensures ReadParameters(s).Reads? ==>
              var rest := ReadParameters(s).rest; |rest| <= |s| && (rest == [] || rest[0] == ',')
    decreases |s|
  {
    var t := SkipWhitespace(s);
    if t != [] && t[0] == ';' && ReadParameter(t[1..]).Reads? {
      ReadParameterShrinks(t[1..]);
      ReadParametersEnd(ReadParameter(t[1..]).rest);
    }
  }

  lemma ReadOfferEnd(s: string)
    ensures ReadOffer(s).Reads? ==>
              var rest := ReadOffer(s).rest; |rest| < |s| && (rest == [] || rest[0] == ',')
  {
    ReadTokenShrinks(s);
    if ReadToken(s).Reads? {
      ReadParametersEnd(ReadToken(s).rest);
    }
  }

  /** Offers from the first name on. */
  function ReadOffers(s: string): Option<seq<Offer>>
    decreases |s|
  {
    match ReadOffer(s)
    case Fails => None
    case Reads(offer, rest) =>
      ReadOfferEnd(s);
      if rest == [] then Some([offer])
      else match ReadOffers(SkipWhitespace(rest[1..]))
        case None => None
        case Some(offers) => Some([offer] + offers)
  }

  function Parse(s: string): Option<seq<Offer>> {
    var t := SkipWhitespace(s);
    if t == [] then Some([]) else ReadOffers(t)
  }

  // ----- what the grammar writes is read

  lemma {:induction false} SkipsOver(space: string, x: string)
    requires AllWhitespace(space)
    ensures SkipWhitespace(space + x) == SkipWhitespace(x)
    decreases |space|
  {
    if space == [] {
      assert space + x == x;
    } else {
      assert (space + x)[1..] == space[1..] + x;
      SkipsOver(space[1..], x);
    }
  }

  lemma {:induction false} TokenEnds(t: string, x: string)
    requires (forall i | 0 <= i < |t| :: IsTokenCharacter(t[i])) && (x == [] || !IsTokenCharacter(x[0]))
    ensures TokenLength(t + x) == |t|
    decreases |t|
  {
    if t == [] {
      assert t + x == x;
    } else {
      assert (t + x)[1..] == t[1..] + x;
      TokenEnds(t[1..], x);
    }
  }

  lemma TokenIsRead(t: string, x: string)
    requires IsToken(t) && (x == [] || !IsTokenCharacter(x[0]))
    ensures SkipWhitespace(t + x) == t + x && ReadToken(t + x) == Reads(Lower(t), x)
  {
    TokenEnds(t, x);
    assert (t + x)[..|t|] == t && (t + x)[|t|..] == x;
  }

  lemma NoSpaceFirst(s: string)
    requires s != [] && !IsWhitespace(s[0])
    ensures SkipWhitespace(s) == s
  {
  }

  lemma FirstThenRest(c: char, x: string)
    ensures ([c] + x)[0] == c && ([c] + x)[1..] == x
  {
  }

  lemma {:induction false} QuotedIsRead(items: seq<QuotedItem>, x: string)
    requires ValidItems(items)
    ensures ReadQuoted(WriteItems(items, x)) == Reads(ItemsMeaning(items), x)
    decreases |items|
  {
    if items == [] {
      FirstThenRest('"', x);
    } else {
      var tail := WriteItems(items[1..], x);
      QuotedIsRead(items[1..], x);
      FirstThenRest(items[0].c, tail);
      if items[0].Escaped? {
        FirstThenRest('\\', [items[0].c] + tail);
        assert WriteItems(items, x)[2..] == tail;
      }
    }
  }

  /** What may come after a parameter. */
  predicate Follows(x: string) {
    x == [] || IsWhitespace(x[0]) || x[0] == ';' || x[0] == ','
  }

  lemma ValueIsRead(v: ValueSyntax, x: string)
    requires ValidValue(v) && v != NoValue && Follows(x)
    ensures WriteValue(v, x) != [] && WriteValue(v, x)[0] == '='
    ensures var w := WriteValue(v, x);
            && w != [] && w[0] == '=' && SkipWhitespace(w) == w
            && ReadValue(w[1..]) == Reads(if v.TokenValue? then Lower(v.token) else ItemsMeaning(v.items), x)
  {
    hide SkipWhitespace, ReadToken, ReadQuoted, WriteItems, AllWhitespace, Lower, ReadValue;
    assert WriteValue(v, x)[0] == '=';
    NoSpaceFirst(WriteValue(v, x));
    match v
    case TokenValue(space, token) =>
      FirstThenRest('=', space + (token + x));
      TokenValueIsRead(space, token, x);
    case QuotedValue(space, items) =>
      FirstThenRest('=', space + ("\"" + WriteItems(items, x)));
      QuotedValueIsRead(space, items, x);
  }

  lemma TokenValueIsRead(space: string, token: string, x: string)
    requires AllWhitespace(space) && IsToken(token) && Follows(x)
    ensures ReadValue(space + (token + x)) == Reads(Lower(token), x)
  {
    hide SkipWhitespace, ReadToken, AllWhitespace, Lower;
    SkipsOver(space, token + x);
    TokenIsRead(token, x);
    assert IsTokenCharacter(token[0]) && (token + x)[0] == token[0];
  }

  lemma QuotedValueIsRead(space: string, items: seq<QuotedItem>, x: string)
    requires AllWhitespace(space) && ValidItems(items)
    ensures ReadValue(space + ("\"" + WriteItems(items, x))) == Reads(ItemsMeaning(items), x)
  {
    hide SkipWhitespace, ReadToken, ReadQuoted, WriteItems, AllWhitespace;
    var quoted := "\"" + WriteItems(items, x);
    SkipsOver(space, quoted);
    NoSpaceFirst(quoted);
    FirstThenRest('"', WriteItems(items, x));
    QuotedIsRead(items, x);
  }

  /** From the name on. */
  function NameOn(p: ParameterSyntax, x: string): string {
    p.before + (p.name + (p.after + WriteValue(p.value, x)))
  }

  lemma ParameterIsRead(p: ParameterSyntax, x: string)
    requires ValidParameter(p) && Follows(x) && (SkipWhitespace(x) == [] || SkipWhitespace(x)[0] != '=')
    ensures var r := ReadParameter(NameOn(p, x));
            r.Reads? && r.value == ParameterMeaning(p) && SkipWhitespace(r.rest) == SkipWhitespace(x)
  {
    var w := WriteValue(p.value, x);
    if p.value != NoValue {
      ValueIsRead(p.value, x);
    }
    SkipsOver(p.before, p.name + (p.after + w));
    AfterName(p.after, w);
    TokenIsRead(p.name, p.after + w);
    SkipsOver(p.after, w);
    SkipTwice(x);
  }

  lemma AfterName(space: string, x: string)
    requires AllWhitespace(space) && (Follows(x) || x[0] == '=')
    ensures space + x == [] || !IsTokenCharacter((space + x)[0])
  {
  }

  lemma SkipTwice(s: string)
    ensures SkipWhitespace(SkipWhitespace(s)) == SkipWhitespace(s)
  {
  }

  lemma ParametersSkip(s: string, t: string)
    requires SkipWhitespace(s) == SkipWhitespace(t)
    ensures ReadParameters(s) == ReadParameters(t)
  {
  }

  /** What a list of parameters may be followed by, it may itself be written in front of. */
  predicate Resumes(x: string) {
    Follows(x) && (SkipWhitespace(x) == [] || SkipWhitespace(x)[0] != '=')
  }

  lemma {:induction false} ParametersAreRead(ps: seq<ParameterSyntax>, x: string, y: string)
    requires (forall i | 0 <= i < |ps| :: ValidParameter(ps[i])) && Resumes(x) && ReadParameters(x) == Reads([], y)
    ensures ReadParameters(WriteParameters(ps, x)) == Reads(ParametersMeaning(ps), y)
    ensures Resumes(WriteParameters(ps, x))
    decreases |ps|
  {
    if ps != [] {
      var tail := WriteParameters(ps[1..], x);
      ParametersAreRead(ps[1..], x, y);
      OneMoreParameter(ps[0], tail);
    }
  }

  lemma OneMoreParameter(p: ParameterSyntax, tail: string)
    requires ValidParameter(p) && Resumes(tail) && ReadParameters(tail).Reads?
    ensures Resumes(WriteParameter(p, tail))
    ensures ReadParameters(WriteParameter(p, tail)) ==
            Reads([ParameterMeaning(p)] + ReadParameters(tail).value, ReadParameters(tail).rest)
  {
    var inner := NameOn(p, tail);
    SkipsOver(p.gap, ";" + inner);
    FirstThenRest(';', inner);
    assert p.gap != [] ==> (p.gap + (";" + inner))[0] == p.gap[0];
    assert p.gap == [] ==> p.gap + (";" + inner) == ";" + inner;
    ParameterIsRead(p, tail);
    ParametersSkip(ReadParameter(inner).rest, tail);
    ReadParameterShrinks(inner);
  }

  lemma OfferIsRead(o: OfferSyntax, x: string)
    requires ValidOffer(o) && (x == [] || x[0] == ',')
    ensures SkipWhitespace(WriteOffer(o, x)) != []
    ensures ReadOffer(SkipWhitespace(WriteOffer(o, x))) == Reads(OfferMeaning(o), x)
  {
    hide SkipWhitespace, ReadToken, ReadParameters, WriteParameters, Lower, Resumes, ParametersMeaning;
    var tail := WriteParameters(o.parameters, o.trail + x);
    EndOfParameters(o.trail, x);
    ParametersAreRead(o.parameters, o.trail + x, x);
    NameEnds(tail);
    TokenIsRead(o.name, tail);
    SkipsOver(o.lead, o.name + tail);
    assert o.name + tail != [];
  }

  lemma EndOfParameters(trail: string, x: string)
    requires AllWhitespace(trail) && (x == [] || x[0] == ',')
    ensures Resumes(trail + x) && ReadParameters(trail + x) == Reads([], x)
  {
    SkipsOver(trail, x);
    assert trail != [] ==> (trail + x)[0] == trail[0];
    assert trail == [] ==> trail + x == x;
  }

  lemma NameEnds(x: string)
    requires Resumes(x)
    ensures x == [] || !IsTokenCharacter(x[0])
  {
  }

  lemma {:induction false} OffersAreRead(os: seq<OfferSyntax>)
    requires os != [] && ValidOffers(os)
    ensures SkipWhitespace(WriteOffers(os)) != [] && ReadOffers(SkipWhitespace(WriteOffers(os))) == Some(OffersMeaning(os))
    decreases |os|
  {
    if |os| == 1 {
      OfferIsRead(os[0], "");
      assert OffersMeaning(os) == [OfferMeaning(os[0])];
    } else {
      var rest := WriteOffers(os[1..]);
      OfferIsRead(os[0], "," + rest);
      FirstThenRest(',', rest);
      OffersAreRead(os[1..]);
      ReadOfferEnd(SkipWhitespace(WriteOffers(os)));
    }
  }

  // ----- what is read was written by the grammar

  lemma {:induction false} SkippedSpace(s: string)
    ensures var n := |s| - |SkipWhitespace(s)|; AllWhitespace(s[..n]) && s == s[..n] + SkipWhitespace(s)
    decreases |s|
  {
    if s != [] && IsWhitespace(s[0]) {
      var t := s[1..];
      var rest := SkipWhitespace(t);
      var n := |t| - |rest|;
      SkippedSpace(t);
      TakeOfDrop(s, 1, n);
      SpaceMore(s[0], t[..n]);
      assert s[..n + 1] == [s[0]] + t[..n] && s == [s[0]] + t;
      assert ([s[0]] + t[..n]) + rest == [s[0]] + (t[..n] + rest);
    }
  }

  lemma SpaceMore(c: char, space: string)
    requires IsWhitespace(c) && AllWhitespace(space)
    ensures AllWhitespace([c] + space)
  {
  }

  lemma SpaceOf(s: string) returns (space: string)
    ensures AllWhitespace(space) && s == space + SkipWhitespace(s)
  {
    SkippedSpace(s);
    space := s[..|s| - |SkipWhitespace(s)|];
  }

  lemma {:induction false} TokenCharacters(s: string)
    ensures forall i | 0 <= i < TokenLength(s) :: IsTokenCharacter(s[i])
    decreases |s|
  {
    if s != [] && IsTokenCharacter(s[0]) {
      TokenCharacters(s[1..]);
      forall i | 0 <= i < TokenLength(s)
        ensures IsTokenCharacter(s[i])
      {
        assert i > 0 ==> s[i] == s[1..][i - 1];
      }
    }
  }

  lemma TokenOf(s: string) returns (token: string)
    requires ReadToken(s).Reads?
    ensures IsToken(token) && ReadToken(s).value == Lower(token) && s == token + ReadToken(s).rest
  {
    TokenCharacters(s);
    token := s[..TokenLength(s)];
  }

  lemma {:induction false} ItemsOf(s: string) returns (items: seq<QuotedItem>)
    requires ReadQuoted(s).Reads?
    ensures ValidItems(items)
    ensures ReadQuoted(s).value == ItemsMeaning(items) && s == WriteItems(items, ReadQuoted(s).rest)
    decreases |s|
  {
    var item := Plain(s[0]);
    var tail := s[1..];
    assert s == [s[0]] + tail;
    if s[0] == '"' {
      items := [];
    } else {
      if s[0] == '\\' {
        item, tail := Escaped(s[1]), s[2..];
        assert s[1..] == [s[1]] + tail;
      }
      var more := ItemsOf(tail);
      items := [item] + more;
      assert items[1..] == more;
    }
  }

  lemma ValueOf(s: string) returns (v: ValueSyntax)
    requires ReadValue(s).Reads?
    ensures ValidValue(v) && v != NoValue && "=" + s == WriteValue(v, ReadValue(s).rest)
    ensures ReadValue(s).value == if v.TokenValue? then Lower(v.token) else ItemsMeaning(v.items)
  {
    var t := SkipWhitespace(s);
    var space := SpaceOf(s);
    if t != [] && t[0] == '"' {
      var items := ItemsOf(t[1..]);
      v := QuotedValue(space, items);
      assert t == "\"" + t[1..];
    } else {
      var token := TokenOf(t);
      v := TokenValue(space, token);
    }
  }

  lemma ParameterOf(s: string, gap: string) returns (p: ParameterSyntax)
    requires ReadParameter(s).Reads? && AllWhitespace(gap)
    ensures ValidParameter(p) && ReadParameter(s).value == ParameterMeaning(p)
    ensures gap + (";" + s) == WriteParameter(p, ReadParameter(s).rest)
  {
    hide SkipWhitespace, ReadToken, ReadValue, Lower, AllWhitespace, IsToken;
    var before := SpaceOf(s);
    var name := TokenOf(SkipWhitespace(s));
    var rest := ReadToken(SkipWhitespace(s)).rest;
    var t := SkipWhitespace(rest);
    var after := SpaceOf(rest);
    if t == [] || t[0] != '=' {
      p := ParameterSyntax(gap, before, name, after, NoValue);
    } else {
      var v := ValueOf(t[1..]);
      p := ParameterSyntax(gap, before, name, after, v);
      assert t == "=" + t[1..];
    }
  }

  lemma {:induction false} ParametersOf(s: string) returns (ps: seq<ParameterSyntax>, trail: string)
    requires ReadParameters(s).Reads?
    ensures (forall i | 0 <= i < |ps| :: ValidParameter(ps[i])) && AllWhitespace(trail)
    ensures ReadParameters(s).value == ParametersMeaning(ps)
    ensures s == WriteParameters(ps, trail + ReadParameters(s).rest)
    decreases |s|
  {
    hide SkipWhitespace, ReadParameter, WriteParameter, ParameterMeaning, ValidParameter, AllWhitespace;
    var t := SkipWhitespace(s);
    var gap := SpaceOf(s);
    if t == [] || t[0] == ',' {
      ps, trail := [], gap;
    } else {
      ReadParameterShrinks(t[1..]);
      var p := ParameterOf(t[1..], gap);
      var more;
      more, trail := ParametersOf(ReadParameter(t[1..]).rest);
      ps := [p] + more;
      assert ps[1..] == more && t == ";" + t[1..];
    }
  }

  lemma OfferOf(s: string, lead: string) returns (o: OfferSyntax)
    requires ReadOffer(s).Reads? && AllWhitespace(lead)
    ensures ValidOffer(o) && ReadOffer(s).value == OfferMeaning(o) && lead + s == WriteOffer(o, ReadOffer(s).rest)
  {
    var name := TokenOf(s);
    var ps, trail := ParametersOf(ReadToken(s).rest);
    o := OfferSyntax(lead, name, ps, trail);
  }

  lemma {:induction false} OffersOf(s: string, lead: string) returns (os: seq<OfferSyntax>)
    requires ReadOffers(s).Some? && AllWhitespace(lead)
    ensures os != [] && ValidOffers(os) && ReadOffers(s).value == OffersMeaning(os) && lead + s == WriteOffers(os)
    decreases |s|
  {
    hide SkipWhitespace, ReadOffer, WriteOffer, OfferMeaning, ValidOffer, AllWhitespace;
    ReadOfferEnd(s);
    var o := OfferOf(s, lead);
    var rest := ReadOffer(s).rest;
    if rest == [] {
      os := [o];
      assert lead + s == WriteOffer(o, "") == WriteOffers(os);
      assert OffersMeaning(os) == [OfferMeaning(o)];
    } else {
      var t := SkipWhitespace(rest[1..]);
      var space := SpaceOf(rest[1..]);
      var more := OffersOf(t, space);
      os := [o] + more;
      assert os[1..] == more && rest == "," + rest[1..];
    }
  }

  /** The parser accepts exactly the strings the grammar writes, and returns exactly what they mean. */
  lemma ParsesExactlyTheGrammar(s: string, offers: seq<Offer>)
    ensures Parse(s) == Some(offers) <==> Derives(s, offers)
  {
    if Parse(s) == Some(offers) {
      var lead := SpaceOf(s);
      var t := SkipWhitespace(s);
      if t == [] {
        assert lead + t == lead;
      } else {
        var os := OffersOf(t, lead);
        assert WriteOffers(os) == s;
      }
    }
    if Derives(s, offers) {
      if AllWhitespace(s) && offers == [] {
        SkipsOver(s, []);
        assert s + [] == s;
      } else {
        var os :| os != [] && ValidOffers(os) && WriteOffers(os) == s && OffersMeaning(os) == offers;
        OffersAreRead(os);
      }
    }
  }

  // ----- printing

  /** An offer that can be written: token names, and values without control characters. */
  predicate PrintableParameter(p: Parameter) {
    IsToken(p.name) && (if p.hasValue then PrintableValue(p.value) else p.value == "")
  }

  predicate PrintableValue(s: string) {
    s != [] ==> (s[0] == '\t' || IsEscapable(s[0])) && PrintableValue(s[1..])
  }

  predicate PrintableParameters(ps: seq<Parameter>) {
    ps != [] ==> PrintableParameter(ps[0]) && PrintableParameters(ps[1..])
  }

  predicate Printable(os: seq<Offer>) {
    os != [] ==> IsToken(os[0].name) && PrintableParameters(os[0].parameters) && Printable(os[1..])
  }

  /** Characters that cannot stand for themselves are escaped. */
  function Quoted(s: string): (items: seq<QuotedItem>)
    requires PrintableValue(s)
    ensures ValidItems(items) && ItemsMeaning(items) == s
  {
    if s == [] then [] else [if IsQuotable(s[0]) then Plain(s[0]) else Escaped(s[0])] + Quoted(s[1..])
  }

  /** A value that is a token is written as one, any other between quotes. */
  function PrintedParameter(p: Parameter): ParameterSyntax
    requires PrintableParameter(p)
  {
    ParameterSyntax("", " ", p.name, "",
      if !p.hasValue then NoValue else if IsToken(p.value) then TokenValue("", p.value) else QuotedValue("", Quoted(p.value)))
  }

  function PrintedParameters(ps: seq<Parameter>): seq<ParameterSyntax>
    requires PrintableParameters(ps)
  {
    if ps == [] then [] else [PrintedParameter(ps[0])] + PrintedParameters(ps[1..])
  }

  function PrintedOffers(os: seq<Offer>): seq<OfferSyntax>
    requires Printable(os)
  {
    if os == [] then [] else [OfferSyntax("", os[0].name, PrintedParameters(os[0].parameters), "")] + PrintedOffers(os[1..])
  }

  function Lowered(p: Parameter): Parameter {
    Parameter(Lower(p.name), if IsToken(p.value) then Lower(p.value) else p.value, p.hasValue)
  }

  function LoweredParameters(ps: seq<Parameter>): seq<Parameter> {
    if ps == [] then [] else [Lowered(ps[0])] + LoweredParameters(ps[1..])
  }

  function LoweredOffers(os: seq<Offer>): seq<Offer> {
    if os == [] then [] else [Offer(Lower(os[0].name), LoweredParameters(os[0].parameters))] + LoweredOffers(os[1..])
  }

  lemma {:induction false} PrintedParametersMean(ps: seq<Parameter>)
    requires PrintableParameters(ps)
    ensures var syntax := PrintedParameters(ps);
            && (forall i | 0 <= i < |syntax| :: ValidParameter(syntax[i]))
            && ParametersMeaning(syntax) == LoweredParameters(ps)
    decreases |ps|
  {
    if ps != [] {
      PrintedParametersMean(ps[1..]);
    }
  }

  lemma {:induction false} PrintedOffersMean(os: seq<Offer>)
    requires Printable(os)
    ensures var syntax := PrintedOffers(os);
            |syntax| == |os| && ValidOffers(syntax) && OffersMeaning(syntax) == LoweredOffers(os)
    decreases |os|
  {
    if os != [] {
      PrintedParametersMean(os[0].parameters);
      PrintedOffersMean(os[1..]);
    }
  }

  /** Printing and parsing again returns the offers, with names and token values in lower case. */
  lemma PrintedOffersParse(os: seq<Offer>)
    requires os != [] && Printable(os)
    ensures Parse(WriteOffers(PrintedOffers(os))) == Some(LoweredOffers(os))
  {
    PrintedOffersMean(os);
    OffersAreRead(PrintedOffers(os));
  }

  /** Spaces around everything, a capital, and a quoted value with an escape in it. */
  function SpacedParameter(): ParameterSyntax {
    ParameterSyntax(" ", " ", "Window", " ", QuotedValue(" ", [Plain('1'), Escaped('0')]))
  }

  lemma SpacedParameterIsWritten(x: string)
    ensures WriteParameter(SpacedParameter(), x) == " ; Window = \"1\\0\"" + x
  {
    var items := [Plain('1'), Escaped('0')];
    assert items[1..] == [Escaped('0')] && items[1..][1..] == [];
    assert WriteItems([], x) == "\"" + x;
    assert WriteItems([Escaped('0')], x) == "\\0\"" + x;
    assert WriteItems(items, x) == "1\\0\"" + x;
    assert WriteValue(SpacedParameter().value, x) == "= \"1\\0\"" + x;
  }

  lemma SpacedParameterIsValid()
    ensures ValidParameter(SpacedParameter())
  {
    assert [Plain('1'), Escaped('0')][1..] == [Escaped('0')] && [Escaped('0')][1..] == [];
    assert ValidItems([Escaped('0')]);
  }

  lemma SpacedParameterMeans()
    ensures ParameterMeaning(SpacedParameter()) == Parameter("window", "10", true)
  {
    var items := [Plain('1'), Escaped('0')];
    assert items[1..] == [Escaped('0')] && items[1..][1..] == [];
    assert ItemsMeaning([Escaped('0')]) == "0";
    assert ItemsMeaning(items) == "10";
    assert Lower("Window") == "window";
  }

  lemma OneParameterIsWritten(name: string, p: ParameterSyntax, x: string)
    ensures WriteOffer(OfferSyntax("", name, [p], ""), x) == name + WriteParameter(p, x)
  {
    hide WriteParameter;
    assert "" + x == x && [p][1..] == [] && WriteParameters([], x) == x;
    assert WriteParameters([p], x) == WriteParameter(p, x);
    assert "" + (name + WriteParameter(p, x)) == name + WriteParameter(p, x);
  }

  lemma BareOfferIsWritten(name: string)
    ensures WriteOffers([OfferSyntax("", name, [], "")]) == name
  {
    assert "" + "" == "" && "" + (name + "") == name;
  }

  lemma TwoOffersAreWritten(a: OfferSyntax, b: OfferSyntax)
    ensures WriteOffers([a, b]) == WriteOffer(a, "," + WriteOffers([b]))
    ensures OffersMeaning([a, b]) == [OfferMeaning(a), OfferMeaning(b)]
  {
    hide WriteOffer, OfferMeaning;
    assert [a, b][1..] == [b] && [b][1..] == [];
    assert OffersMeaning([b]) == [OfferMeaning(b)];
  }

  lemma ShortNames()
    ensures Lower("Deflate") == "deflate" && IsToken("Deflate") && Lower("x") == "x" && IsToken("x")
  {
  }

  lemma HeaderIsRead()
    ensures Parse("Deflate ; Window = \"1\\0\",x") ==
            Some([Offer("deflate", [Parameter("window", "10", true)]), Offer("x", [])])
  {
    hide WriteParameter, SpacedParameter, ParameterMeaning, ValidParameter, WriteOffers, WriteOffer, OffersMeaning, IsToken, Lower;
    var p := SpacedParameter();
    var first, second := OfferSyntax("", "Deflate", [p], ""), OfferSyntax("", "x", [], "");
    ShortNames();
    SpacedParameterIsWritten(",x");
    SpacedParameterIsValid();
    SpacedParameterMeans();
    BareOfferIsWritten("x");
    OneParameterIsWritten("Deflate", p, ",x");
    TwoOffersAreWritten(first, second);
    assert "," + "x" == ",x";
    assert "Deflate" + (" ; Window = \"1\\0\"" + ",x") == "Deflate ; Window = \"1\\0\",x";
    assert ParametersMeaning([p]) == [ParameterMeaning(p)];
    OffersAreRead([first, second]);
  }
}
