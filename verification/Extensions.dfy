/**
 The extension parser and the permessage-deflate negotiator as they run, proved against the grammar
 and against the rules for accepting an offer (section 7.1 of RFC 7692).
 */
module Extensions {
  import opened Octets
  import opened ExtensionSyntax

  class ExtensionsParser {
    const input: string
    var position: nat

    ghost predicate Valid()
      reads this
    {
      position <= |input|
    }

    ghost function Rest(): string
      reads this
      requires Valid()
    {
      input[position..]
    }

    constructor (input: string)
      ensures Valid() && this.input == input && Rest() == input
    {
      this.input := input;
      position := 0;
    }

    method SkipWhitespace()
      requires Valid()
      modifies this
      ensures Valid() && Rest() == ExtensionSyntax.SkipWhitespace(old(Rest()))
    {
      while position < |input| && (input[position] == ' ' || input[position] == '\t')
        invariant Valid() && ExtensionSyntax.SkipWhitespace(Rest()) == ExtensionSyntax.SkipWhitespace(old(Rest()))
      {
        assert Rest()[1..] == input[position + 1..];
        position := position + 1;
      }
    }

    method ReadToken() returns (ok: bool, token: string)
      requires Valid()
      modifies this
      ensures Valid() && Told(ok, token, ExtensionSyntax.ReadToken(old(Rest())))
    {
      var start := position;
      SkipToken();
      SliceFromRest(input, start, position);
      token := LowerAscii(input[start..position]);
      ok := position != start;
    }

    method SkipToken()
      requires Valid()
      modifies this
      ensures Valid() && position == old(position) + TokenLength(old(Rest()))
    {
      while position < |input| && IsTokenCharacter(input[position])
        invariant Valid() && old(position) <= position
        invariant TokenLength(old(Rest())) == position - old(position) + TokenLength(Rest())
      {
        assert Rest()[1..] == input[position + 1..];
        position := position + 1;
      }
    }

    /** A method's answer agrees with the specification, and so does the place it stopped. */
    ghost predicate Told<T>(ok: bool, value: T, read: Read<T>)
      reads this
      requires Valid()
    {
      match read
      case Fails => !ok
      case Reads(v, rest) => ok && value == v && Rest() == rest
    }

    method ReadQuotedString() returns (ok: bool, value: string)
      requires Valid()
      modifies this
      ensures Valid()
      ensures var s := old(Rest());
              if s == [] || s[0] != '"' then !ok else Told(ok, value, ReadQuoted(s[1..]))
    {
      hide ReadQuoted, OneMore;
      value := "";
      if position == |input| || input[position] != '"' {
        return false, value;
      }
      position := position + 1;
      ghost var start := Rest();
      assert start == old(Rest())[1..];
      NothingBefore(ReadQuoted(start));
      while position < |input|
        invariant Valid() && ReadQuoted(start) == Before(value, ReadQuoted(Rest()))
      {
        ghost var rest := Rest();
        assert rest != [] && rest[0] == input[position];
        QuotedSteps(rest);
        DropOfDrop(input, position, 1);
        var character := input[position];
        position := position + 1;
        if character == '"' {
          assert value + "" == value;
          return true, value;
        }
        if character == '\\' {
          if position == |input| {
            return false, value;
          }
          character := input[position];
          DropOfDrop(input, position - 1, 2);
          position := position + 1;
          if !IsEscapable(character) {
            return false, value;
          }
        } else if !IsQuotable(character) {
          return false, value;
        }
        BeforeMore(value, character, ReadQuoted(Rest()));
        value := value + [character];
      }
      assert Rest() == "";
      QuotedNeverEnds();
      return false, value;
    }

    method ReadParameter() returns (ok: bool, parameter: Parameter)
      requires Valid()
      modifies this
      ensures Valid() && Told(ok, parameter, ExtensionSyntax.ReadParameter(old(Rest())))
    {
      parameter := Parameter("", "", false);
      SkipWhitespace();
      var name, value;
      ok, name := ReadToken();
      if !ok {
        return;
      }
      SkipWhitespace();
      if position == |input| || input[position] != '=' {
        return true, Parameter(name, "", false);
      }
      position := position + 1;
      SkipWhitespace();
      if position < |input| && input[position] == '"' {
        ok, value := ReadQuotedString();
      } else {
        ok, value := ReadToken();
      }
      parameter := Parameter(name, value, true);
    }

    method ReadParameters() returns (ok: bool, parameters: seq<Parameter>)
      requires Valid()
      modifies this
      ensures Valid() && Told(ok, parameters, ExtensionSyntax.ReadParameters(old(Rest())))
    {
      hide ExtensionSyntax.ReadParameter;
      parameters := [];
      ghost var start := Rest();
      NoneBefore(ExtensionSyntax.ReadParameters(start));
      while true
        invariant Valid() && ExtensionSyntax.ReadParameters(start) == BeforeAll(parameters, ExtensionSyntax.ReadParameters(Rest()))
        decreases |Rest()|
      {
        ghost var rest := Rest();
        SkipWhitespace();
        if position == |input| || input[position] == ',' {
          assert parameters + [] == parameters;
          return true, parameters;
        }
        position := position + 1;
        if input[position - 1] != ';' {
          return false, parameters;
        }
        assert Rest() == ExtensionSyntax.SkipWhitespace(rest)[1..];
        ReadParameterShrinks(Rest());
        var parameter;
        ok, parameter := ReadParameter();
        if !ok {
          return;
        }
        BeforeAllMore(parameters, parameter, ExtensionSyntax.ReadParameters(Rest()));
        parameters := parameters + [parameter];
      }
    }

    /** Accepts exactly what the grammar writes. */
    method Parse() returns (ok: bool, offers: seq<Offer>)
      requires Valid() && position == 0
      modifies this
      ensures ok <==> ExtensionSyntax.Parse(input).Some?
      ensures ok ==> ExtensionSyntax.Parse(input) == Some(offers) && Derives(input, offers)
      ensures !ok ==> !exists os :: Derives(input, os)
    {
      ok, offers := ParseOffers();
      if ok {
        ParsesExactlyTheGrammar(input, offers);
      } else {
        forall os ensures !Derives(input, os) {
          ParsesExactlyTheGrammar(input, os);
        }
      }
    }

    method ParseOffers() returns (ok: bool, offers: seq<Offer>)
      requires Valid() && position == 0
      modifies this
      ensures ok <==> ExtensionSyntax.Parse(input).Some?
      ensures ok ==> ExtensionSyntax.Parse(input) == Some(offers)
    {
      hide ExtensionSyntax.ReadParameters, ExtensionSyntax.SkipWhitespace;
      offers := [];
      assert Rest() == input;
      SkipWhitespace();
      if position == |input| {
        return true, offers;
      }
      ghost var start := Rest();
      NoOffersBefore(ReadOffers(start));
      while true
        invariant Valid() && ReadOffers(start) == BeforeOffers(offers, ReadOffers(Rest()))
        decreases |Rest()|
      {
        ghost var rest := Rest();
        ReadOfferEnd(rest);
        var name, parameters;
        ok, name := ReadToken();
        if !ok {
          return;
        }
        ok, parameters := ReadParameters();
        if !ok {
          return;
        }
        ghost var sofar := offers;
        offers := offers + [Offer(name, parameters)];
        if position == |input| {
          return true, offers;
        }
        position := position + 1;
        assert Rest() == ReadOffer(rest).rest[1..];
        SkipWhitespace();
        if position == |input| {
          return false, offers;
        }
        BeforeOffersMore(sofar, Offer(name, parameters), ReadOffers(Rest()));
      }
    }
  }

  lemma SliceFromRest(s: string, i: nat, j: nat)
    requires i <= j <= |s|
    ensures s[i..][..j - i] == s[i..j] && s[i..][j - i..] == s[j..]
  {
    TakeOfDrop(s, i, j - i);
    DropOfDrop(s, i, j - i);
  }

  method LowerAscii(value: string) returns (lowered: string)
    ensures lowered == Lower(value)
  {
    lowered := value;
    for i := 0 to |value|
      invariant |lowered| == |value|
      invariant forall k | 0 <= k < |value| :: lowered[k] == if k < i then LowerCharacter(value[k]) else value[k]
    {
      if 'A' <= lowered[i] <= 'Z' {
        lowered := lowered[i := lowered[i] - 'A' + 'a'];
      }
    }
  }

  function Before(value: string, read: Read<string>): Read<string> {
    if read.Fails? then Fails else Reads(value + read.value, read.rest)
  }

  lemma NothingBefore(read: Read<string>)
    ensures Before("", read) == read
  {
    if read.Reads? {
      assert "" + read.value == read.value;
    }
  }

  lemma NoneBefore(read: Read<seq<Parameter>>)
    ensures BeforeAll([], read) == read
  {
    if read.Reads? {
      assert [] + read.value == read.value;
    }
  }

  lemma NoOffersBefore(read: Option<seq<Offer>>)
    ensures BeforeOffers([], read) == read
  {
    if read.Some? {
      assert [] + read.value == read.value;
    }
  }

  function OneMore(c: char, read: Read<string>): Read<string> {
    if read.Fails? then Fails else Reads([c] + read.value, read.rest)
  }

  lemma QuotedSteps(s: string)
    requires s != []
    ensures ReadQuoted(s) ==
            if s[0] == '"' then Reads("", s[1..])
            else if s[0] == '\\' then
              if |s| == 1 || !IsEscapable(s[1]) then Fails else OneMore(s[1], ReadQuoted(s[2..]))
            else if !IsQuotable(s[0]) then Fails
            else OneMore(s[0], ReadQuoted(s[1..]))
  {
  }

  lemma QuotedNeverEnds()
    ensures ReadQuoted("") == Fails
  {
  }

  lemma BeforeMore(value: string, c: char, read: Read<string>)
    ensures Before(value + [c], read) == Before(value, OneMore(c, read))
  {
    if read.Reads? {
      assert (value + [c]) + read.value == value + ([c] + read.value);
    }
  }

  function BeforeAll(ps: seq<Parameter>, read: Read<seq<Parameter>>): Read<seq<Parameter>> {
    if read.Fails? then Fails else Reads(ps + read.value, read.rest)
  }

  lemma BeforeAllMore(ps: seq<Parameter>, p: Parameter, read: Read<seq<Parameter>>)
    ensures BeforeAll(ps + [p], read) == BeforeAll(ps, if read.Fails? then Fails else Reads([p] + read.value, read.rest))
  {
    if read.Reads? {
      assert (ps + [p]) + read.value == ps + ([p] + read.value);
    }
  }

  function BeforeOffers(os: seq<Offer>, read: Option<seq<Offer>>): Option<seq<Offer>> {
    if read.None? then None else Some(os + read.value)
  }

  lemma BeforeOffersMore(os: seq<Offer>, o: Offer, read: Option<seq<Offer>>)
    ensures BeforeOffers(os + [o], read) == BeforeOffers(os, if read.None? then None else Some([o] + read.value))
  {
    if read.Some? {
      assert (os + [o]) + read.value == os + ([o] + read.value);
    }
  }

  // ----- which offers are acceptable

  const DEFLATE := "permessage-deflate"
  const SERVER_NO_CONTEXT := "server_no_context_takeover"
  const CLIENT_NO_CONTEXT := "client_no_context_takeover"
  const SERVER_WINDOW := "server_max_window_bits"
  const CLIENT_WINDOW := "client_max_window_bits"

  datatype Options = Options(deflate: bool, serverNoContext: bool, clientNoContext: bool, sliding: bool)

  const NOTHING := Options(false, false, false, false)

  predicate IsWindowBits(p: Parameter, valueRequired: bool) {
    if !p.hasValue then !valueRequired
    else if |p.value| == 1 then '8' <= p.value[0] <= '9'
    else |p.value| == 2 && p.value[0] == '1' && '0' <= p.value[1] <= '5'
  }

  function WindowBitsValue(p: Parameter): nat {
    if !p.hasValue || !IsWindowBits(p, true) then 0
    else if |p.value| == 1 then (p.value[0] - '0') as nat
    else 10 + (p.value[1] - '0') as nat
  }

  /** Decimal digits, without leading zeros. */
  function Decimal(n: nat): string {
    (if n < 10 then "" else Decimal(n / 10)) + ['0' + (n % 10) as char]
  }

  /** The window value is the number its digits write, from 8 to 15, and nothing else is accepted. */
  lemma WindowBitsAreDecimal(p: Parameter, n: nat)
    requires 8 <= n <= 15
    ensures WindowBitsValue(p) == n <==> p.hasValue && p.value == Decimal(n)
    ensures WindowBitsValue(p) == 0 || 8 <= WindowBitsValue(p) <= 15
  {
    if n >= 10 {
      assert Decimal(n / 10) == ['1'];
      assert Decimal(n) == ['1', '0' + (n % 10) as char];
    } else {
      assert Decimal(n) == ['0' + (n % 10) as char];
    }
    if WindowBitsValue(p) == n {
      assert p.value == if n >= 10 then ['1', p.value[1]] else [p.value[0]];
    }
  }

  predicate Acceptable(p: Parameter, wanted: Options) {
    || (p.name == SERVER_NO_CONTEXT && !p.hasValue && wanted.serverNoContext)
    || (p.name == CLIENT_NO_CONTEXT && !p.hasValue)
    || (p.name == SERVER_WINDOW && WindowBitsValue(p) >= 9)
    || (p.name == CLIENT_WINDOW && IsWindowBits(p, false))
  }

  /** The four parameters of RFC 7692 and their values; a server restriction counts only where it can be granted. */
  lemma FourParameters(p: Parameter, wanted: Options)
    ensures Acceptable(p, wanted) <==>
              || (p.name == "server_no_context_takeover" && !p.hasValue && wanted.serverNoContext)
              || (p.name == "client_no_context_takeover" && !p.hasValue)
              || (p.name == "server_max_window_bits" && p.hasValue && exists n | 9 <= n <= 15 :: p.value == Decimal(n))
              || (p.name == "client_max_window_bits" && (p.hasValue ==> exists n | 8 <= n <= 15 :: p.value == Decimal(n)))
  {
    hide Decimal;
    WindowsInDecimal(p, 8);
    WindowsInDecimal(p, 9);
  }

  lemma WindowsInDecimal(p: Parameter, least: nat)
    requires 8 <= least <= 15
    ensures WindowBitsValue(p) >= least <==> p.hasValue && exists n | least <= n <= 15 :: p.value == Decimal(n)
  {
    hide Decimal;
    WindowBitsAreDecimal(p, least);
    if WindowBitsValue(p) >= least {
      WindowBitsAreDecimal(p, WindowBitsValue(p));
    }
    if p.hasValue && exists n | least <= n <= 15 :: p.value == Decimal(n) {
      var n :| least <= n <= 15 && p.value == Decimal(n);
      WindowBitsAreDecimal(p, n);
    }
  }

  predicate Distinct(ps: seq<Parameter>) {
    forall i, j | 0 <= i < j < |ps| :: ps[i].name != ps[j].name
  }

  predicate Compatible(ps: seq<Parameter>, wanted: Options) {
    Distinct(ps) && forall i | 0 <= i < |ps| :: Acceptable(ps[i], wanted)
  }

  /** The offer asks for a window of `bits`. */
  predicate Asks(ps: seq<Parameter>, bits: nat) {
    exists i | 0 <= i < |ps| :: ps[i].name == SERVER_WINDOW && WindowBitsValue(ps[i]) == bits
  }

  predicate Usable(o: Offer, wanted: Options) {
    o.name == DEFLATE && Compatible(o.parameters, wanted)
  }

  /** A window as negotiated: what the offer asks for, or all of it when it asks for none. */
  predicate WindowFor(ps: seq<Parameter>, bits: nat, negotiated: bool) {
    if negotiated then 9 <= bits <= 15 && Asks(ps, bits)
    else bits == 15 && forall i | 0 <= i < |ps| :: ps[i].name != SERVER_WINDOW
  }

  lemma NamesDiffer()
    ensures SERVER_NO_CONTEXT != CLIENT_NO_CONTEXT && SERVER_NO_CONTEXT != SERVER_WINDOW && SERVER_NO_CONTEXT != CLIENT_WINDOW
    ensures CLIENT_NO_CONTEXT != SERVER_WINDOW && CLIENT_NO_CONTEXT != CLIENT_WINDOW && SERVER_WINDOW != CLIENT_WINDOW
  {
    assert SERVER_NO_CONTEXT[0] == 's' && CLIENT_NO_CONTEXT[0] == 'c' && SERVER_WINDOW[0] == 's' && CLIENT_WINDOW[0] == 'c';
    assert |SERVER_WINDOW| == 22 && |CLIENT_WINDOW| == 22 && |SERVER_NO_CONTEXT| == 26 && |CLIENT_NO_CONTEXT| == 26;
  }

  method IsAcceptable(p: Parameter, wanted: Options) returns (ok: bool)
    ensures ok <==> Acceptable(p, wanted)
  {
    NamesDiffer();
    if p.name == SERVER_NO_CONTEXT {
      return !p.hasValue && wanted.serverNoContext;
    } else if p.name == CLIENT_NO_CONTEXT {
      return !p.hasValue;
    } else if p.name == SERVER_WINDOW {
      return WindowBitsValue(p) >= 9;
    } else if p.name == CLIENT_WINDOW {
      return IsWindowBits(p, false);
    }
    return false;
  }

  method IsCompatibleOffer(ps: seq<Parameter>, wanted: Options) returns (ok: bool, bits: nat, negotiated: bool)
    ensures ok <==> Compatible(ps, wanted)
    ensures ok ==> WindowFor(ps, bits, negotiated)
  {
    var seen: set<string> := {};
    ok, bits, negotiated := true, 15, false;
    var k := 0;
    while ok && k < |ps|
      invariant k <= |ps| && seen == (set i | 0 <= i < k :: ps[i].name)
      invariant ok ==> Compatible(ps[..k], wanted) && WindowFor(ps[..k], bits, negotiated)
      invariant !ok ==> !Compatible(ps, wanted)
      decreases |ps| - k
    {
      var p := ps[k];
      var acceptable := IsAcceptable(p, wanted);
      ok := p.name !in seen && acceptable;
      seen := seen + {p.name};
      if ok && p.name == SERVER_WINDOW {
        bits, negotiated := WindowBitsValue(p), true;
      }
      assert ps[..k + 1] == ps[..k] + [p];
      if ok {
        WindowMore(ps[..k], p, bits, negotiated);
        CompatibleMore(ps[..k], p, wanted);
      }
      k := k + 1;
    }
    assert ps[..|ps|] == ps;
  }

  lemma CompatibleMore(ps: seq<Parameter>, p: Parameter, wanted: Options)
    requires Compatible(ps, wanted) && Acceptable(p, wanted) && forall i | 0 <= i < |ps| :: ps[i].name != p.name
    ensures Compatible(ps + [p], wanted)
  {
  }

  lemma WindowMore(ps: seq<Parameter>, p: Parameter, bits: nat, negotiated: bool)
    requires if p.name == SERVER_WINDOW then negotiated && bits == WindowBitsValue(p) >= 9 else WindowFor(ps, bits, negotiated)
    ensures WindowFor(ps + [p], bits, negotiated)
  {
    var qs := ps + [p];
    if p.name == SERVER_WINDOW {
      WindowBitsAreDecimal(p, 15);
      assert qs[|ps|] == p;
    } else if negotiated {
      var i :| 0 <= i < |ps| && ps[i].name == SERVER_WINDOW && WindowBitsValue(ps[i]) == bits;
      assert qs[i] == ps[i];
    }
  }

  // ----- negotiating

  /** The response for negotiated options. */
  function Response(o: Options, bits: nat, negotiated: bool): string {
    if !o.deflate then ""
    else
      var client := if o.clientNoContext then DEFLATE + "; " + CLIENT_NO_CONTEXT else DEFLATE;
      var server := if o.serverNoContext then client + "; " + SERVER_NO_CONTEXT else client;
      if negotiated then server + "; " + SERVER_WINDOW + "=" + Decimal(bits) else server
  }

  class ExtensionsNegotiator {
    var options: Options
    var serverMaxWindowBits: nat
    var serverMaxWindowBitsNegotiated: bool

    constructor (wanted: Options)
      ensures options == wanted && serverMaxWindowBits == 15 && !serverMaxWindowBitsNegotiated
    {
      options := wanted;
      serverMaxWindowBits := 15;
      serverMaxWindowBitsNegotiated := false;
    }

    method GenerateOffer() returns (response: string)
      ensures response == Response(options, serverMaxWindowBits, serverMaxWindowBitsNegotiated)
    {
      response := "";
      if options.deflate {
        assert response + DEFLATE == DEFLATE;
        response := response + DEFLATE;
        if options.clientNoContext {
          response := response + "; " + CLIENT_NO_CONTEXT;
        }
        if options.serverNoContext {
          response := response + "; " + SERVER_NO_CONTEXT;
        }
        if serverMaxWindowBitsNegotiated {
          response := response + "; " + SERVER_WINDOW + "=" + Decimal(serverMaxWindowBits);
        }
      }
    }

    /** Takes the first usable offer of a well-formed header, and no other; if there is none, nothing is negotiated. */
    method ReadOffer(header: string)
      modifies this
      ensures if Negotiable(header, old(options)) then
                && options == old(options)
                && FirstUsable(header, options, serverMaxWindowBits, serverMaxWindowBitsNegotiated)
              else
                && options == NOTHING && serverMaxWindowBits == old(serverMaxWindowBits)
                && serverMaxWindowBitsNegotiated == old(serverMaxWindowBitsNegotiated)
    {
      hide ExtensionSyntax.Parse, Usable, WindowFor, Derives;
      if !options.deflate {
        options := NOTHING;
        return;
      }
      var parser := new ExtensionsParser(header);
      var ok, offers := parser.Parse();
      var accepted := false;
      if ok {
        var i, bits, negotiated;
        accepted, i, bits, negotiated := FindUsable(offers, options);
        if accepted {
          serverMaxWindowBits := bits;
          serverMaxWindowBitsNegotiated := negotiated;
        }
      }
      if !accepted {
        options := NOTHING;
      }
    }
  }

  /** The search for the first usable offer. */
  method FindUsable(offers: seq<Offer>, wanted: Options) returns (found: bool, i: nat, bits: nat, negotiated: bool)
    ensures found ==> Chosen(offers, wanted, i, bits, negotiated)
    ensures !found ==> forall j | 0 <= j < |offers| :: !Usable(offers[j], wanted)
  {
    hide Compatible, WindowFor;
    found, i, bits, negotiated := false, 0, 15, false;
    while i < |offers|
      invariant i <= |offers| && !found
      invariant forall j | 0 <= j < i :: !Usable(offers[j], wanted)
    {
      if offers[i].name == DEFLATE {
        found, bits, negotiated := IsCompatibleOffer(offers[i].parameters, wanted);
        if found {
          return;
        }
      }
      i := i + 1;
    }
  }

  /** Offer `i` is usable, none before it is, and the window is the one it asks for. */
  predicate Chosen(offers: seq<Offer>, wanted: Options, i: nat, bits: nat, negotiated: bool) {
    && i < |offers| && Usable(offers[i], wanted) && (forall j | 0 <= j < i :: !Usable(offers[j], wanted))
    && WindowFor(offers[i].parameters, bits, negotiated)
  }

  /** Compression is wanted, the header well-formed, and some offer in it usable. */
  ghost predicate Negotiable(header: string, wanted: Options) {
    && wanted.deflate && Parse(header).Some?
    && exists i | 0 <= i < |Parse(header).value| :: Usable(Parse(header).value[i], wanted)
  }

  ghost predicate FirstUsable(header: string, wanted: Options, bits: nat, negotiated: bool)
    requires Parse(header).Some?
  {
    exists i | 0 <= i < |Parse(header).value| :: Chosen(Parse(header).value, wanted, i, bits, negotiated)
  }

  // ----- what the client reads in the response

  predicate IsNameCharacter(c: char) { 'a' <= c <= 'z' || c == '_' || c == '-' }

  lemma NameIsToken(s: string)
    requires s != [] && forall c | c in s :: IsNameCharacter(c)
    ensures IsToken(s) && Lower(s) == s
  {
    forall i | 0 <= i < |s|
      ensures IsTokenCharacter(s[i]) && LowerCharacter(s[i]) == s[i]
    {
      assert IsNameCharacter(s[i]);
    }
  }

  lemma NamesAreTokens()
    ensures IsToken(DEFLATE) && Lower(DEFLATE) == DEFLATE
    ensures IsToken(SERVER_NO_CONTEXT) && Lower(SERVER_NO_CONTEXT) == SERVER_NO_CONTEXT
    ensures IsToken(CLIENT_NO_CONTEXT) && Lower(CLIENT_NO_CONTEXT) == CLIENT_NO_CONTEXT
    ensures IsToken(SERVER_WINDOW) && Lower(SERVER_WINDOW) == SERVER_WINDOW
    ensures IsToken(CLIENT_WINDOW) && Lower(CLIENT_WINDOW) == CLIENT_WINDOW
  {
    NameIsToken(DEFLATE);
    NameIsToken(SERVER_NO_CONTEXT);
    NameIsToken(CLIENT_NO_CONTEXT);
    NameIsToken(SERVER_WINDOW);
    NameIsToken(CLIENT_WINDOW);
  }

  function Flag(name: string): ParameterSyntax {
    ParameterSyntax("", " ", name, "", NoValue)
  }

  function Window(bits: nat): ParameterSyntax {
    ParameterSyntax("", " ", SERVER_WINDOW, "", TokenValue("", Decimal(bits)))
  }

  function ResponseSyntax(o: Options, bits: nat, negotiated: bool): OfferSyntax {
    OfferSyntax("", DEFLATE,
      (if o.clientNoContext then [Flag(CLIENT_NO_CONTEXT)] else [])
      + ((if o.serverNoContext then [Flag(SERVER_NO_CONTEXT)] else [])
      + (if negotiated then [Window(bits)] else [])), "")
  }

  function ResponseParameters(o: Options, bits: nat, negotiated: bool): seq<Parameter> {
    (if o.clientNoContext then [Parameter(CLIENT_NO_CONTEXT, "", false)] else [])
    + ((if o.serverNoContext then [Parameter(SERVER_NO_CONTEXT, "", false)] else [])
    + (if negotiated then [Parameter(SERVER_WINDOW, Decimal(bits), true)] else []))
  }

  lemma FlagWritten(s: string, name: string, x: string)
    ensures s + WriteParameter(Flag(name), x) == (s + "; " + name) + x
  {
  }

  lemma WindowWritten(s: string, bits: nat)
    ensures s + WriteParameter(Window(bits), "") == s + "; " + SERVER_WINDOW + "=" + Decimal(bits)
  {
  }

  lemma {:induction false} WriteSplit(ps: seq<ParameterSyntax>, qs: seq<ParameterSyntax>, x: string)
    ensures WriteParameters(ps + qs, x) == WriteParameters(ps, WriteParameters(qs, x))
    ensures ParametersMeaning(ps + qs) == ParametersMeaning(ps) + ParametersMeaning(qs)
    decreases |ps|
  {
    if ps == [] {
      assert ps + qs == qs;
    } else {
      assert (ps + qs)[1..] == ps[1..] + qs;
      WriteSplit(ps[1..], qs, x);
    }
  }

  /** Appending an optional flag to what was written so far, and the rest after it. */
  lemma OptionalWritten(s: string, present: bool, name: string, rest: seq<ParameterSyntax>)
    ensures var ps := if present then [Flag(name)] else [];
            s + WriteParameters(ps + rest, "") == (if present then s + "; " + name else s) + WriteParameters(rest, "")
  {
    if present {
      assert ([Flag(name)] + rest)[1..] == rest;
      FlagWritten(s, name, WriteParameters(rest, ""));
    } else {
      assert [] + rest == rest;
    }
  }

  /** Everything negotiated. */
  lemma FullResponse(wanted: Options)
    requires wanted.deflate && wanted.clientNoContext && wanted.serverNoContext
    ensures Response(wanted, 10, true) ==
            "permessage-deflate" + "; " + "client_no_context_takeover" + "; " + "server_no_context_takeover"
            + "; " + "server_max_window_bits" + "=" + "10"
  {
    assert Decimal(1) == "1";
    assert Decimal(10) == "10";
  }

  lemma ResponseIsWritten(o: Options, bits: nat, negotiated: bool)
    requires o.deflate
    ensures WriteOffers([ResponseSyntax(o, bits, negotiated)]) == Response(o, bits, negotiated)
  {
    hide WriteParameter;
    var window := if negotiated then [Window(bits)] else [];
    var server := (if o.serverNoContext then [Flag(SERVER_NO_CONTEXT)] else []) + window;
    var client := if o.clientNoContext then DEFLATE + "; " + CLIENT_NO_CONTEXT else DEFLATE;
    var both := if o.serverNoContext then client + "; " + SERVER_NO_CONTEXT else client;
    OptionalWritten(DEFLATE, o.clientNoContext, CLIENT_NO_CONTEXT, server);
    OptionalWritten(client, o.serverNoContext, SERVER_NO_CONTEXT, window);
    WindowWritten(both, bits);
    assert both + "" == both;
    assert negotiated ==> WriteParameters(window, "") == WriteParameter(Window(bits), "");
    var ps := ResponseSyntax(o, bits, negotiated).parameters;
    assert "" + "" == "" && "" + (DEFLATE + WriteParameters(ps, "")) == DEFLATE + WriteParameters(ps, "");
  }

  lemma ResponseIsValid(o: Options, bits: nat, negotiated: bool)
    requires negotiated ==> 9 <= bits <= 15
    ensures ValidOffer(ResponseSyntax(o, bits, negotiated))
    ensures ParametersMeaning(ResponseSyntax(o, bits, negotiated).parameters) == ResponseParameters(o, bits, negotiated)
  {
    NamesAreTokens();
    var server := if o.serverNoContext then [Flag(SERVER_NO_CONTEXT)] else [];
    var window := if negotiated then [Window(bits)] else [];
    OptionalFlag(o.clientNoContext, CLIENT_NO_CONTEXT, server + window);
    OptionalFlag(o.serverNoContext, SERVER_NO_CONTEXT, window);
    if negotiated {
      DecimalIsToken(bits);
      assert ParametersMeaning(window) == [ParameterMeaning(Window(bits))];
    }
  }

  lemma OptionalFlag(present: bool, name: string, rest: seq<ParameterSyntax>)
    requires IsToken(name) && Lower(name) == name
    ensures var ps := if present then [Flag(name)] else [];
            && (forall i | 0 <= i < |ps| :: ValidParameter(ps[i]))
            && ParametersMeaning(ps + rest) == (if present then [Parameter(name, "", false)] else []) + ParametersMeaning(rest)
  {
    var ps := if present then [Flag(name)] else [];
    WriteSplit(ps, rest, "");
    assert present ==> ParametersMeaning(ps) == [ParameterMeaning(Flag(name))];
  }

  lemma DecimalIsToken(n: nat)
    requires 9 <= n <= 15
    ensures IsToken(Decimal(n)) && Lower(Decimal(n)) == Decimal(n)
  {
    assert n >= 10 ==> Decimal(n) == ['1', '0' + (n % 10) as char] by {
      assert n >= 10 ==> Decimal(n / 10) == ['1'];
    }
    assert n == 9 ==> Decimal(n) == ['9'];
  }

  /** The response parses back to one offer with exactly the negotiated parameters. */
  lemma ResponseReparses(o: Options, bits: nat, negotiated: bool)
    requires o.deflate && (negotiated ==> 9 <= bits <= 15)
    ensures Parse(Response(o, bits, negotiated)) == Some([Offer(DEFLATE, ResponseParameters(o, bits, negotiated))])
  {
    var os := [ResponseSyntax(o, bits, negotiated)];
    ResponseIsValid(o, bits, negotiated);
    ResponseIsWritten(o, bits, negotiated);
    NamesAreTokens();
    OffersAreRead(os);
    assert OffersMeaning(os) == [OfferMeaning(os[0])];
  }

  ghost predicate Mentions(ps: seq<Parameter>, name: string) {
    exists i | 0 <= i < |ps| :: ps[i].name == name
  }

  /** The client finds each flag in the response exactly when it was negotiated, and the window exactly as it was. */
  lemma ResponseTells(o: Options, bits: nat, negotiated: bool)
    requires negotiated ==> 9 <= bits <= 15
    ensures var ps := ResponseParameters(o, bits, negotiated);
            && (Mentions(ps, CLIENT_NO_CONTEXT) <==> o.clientNoContext)
            && (Mentions(ps, SERVER_NO_CONTEXT) <==> o.serverNoContext)
            && (forall n | 9 <= n <= 15 :: Asks(ps, n) <==> negotiated && n == bits)
  {
    NamesDiffer();
    var ps := ResponseParameters(o, bits, negotiated);
    var k := (if o.clientNoContext then 1 else 0) + (if o.serverNoContext then 1 else 0);
    assert o.clientNoContext ==> ps[0].name == CLIENT_NO_CONTEXT;
    assert o.serverNoContext ==> ps[k - 1].name == SERVER_NO_CONTEXT;
    if negotiated {
      WindowBitsAreDecimal(ps[k], bits);
      assert ps[k].name == SERVER_WINDOW;
    }
  }

  /**
   What the response grants of what the accepted offer asks for: `server_no_context_takeover` always, the
   window always and no other; `client_no_context_takeover`, a mere hint, only as configured.
   */
  lemma RestrictionIsGranted(header: string, wanted: Options, bits: nat, negotiated: bool)
    requires Negotiable(header, wanted) && FirstUsable(header, wanted, bits, negotiated)
    ensures exists i | 0 <= i < |Parse(header).value| ::
              && Chosen(Parse(header).value, wanted, i, bits, negotiated)
              && var asked, granted := Parse(header).value[i].parameters, ResponseParameters(wanted, bits, negotiated);
                 && (Mentions(asked, SERVER_NO_CONTEXT) ==> Mentions(granted, SERVER_NO_CONTEXT))
                 && (Mentions(granted, CLIENT_NO_CONTEXT) <==> wanted.clientNoContext)
                 && (forall n | 9 <= n <= 15 :: Asks(asked, n) <==> Asks(granted, n))
  {
    hide ResponseParameters, Asks;
    ResponseTells(wanted, bits, negotiated);
    var i :| 0 <= i < |Parse(header).value| && Chosen(Parse(header).value, wanted, i, bits, negotiated);
    ServerRestriction(Parse(header).value[i].parameters, wanted);
    WindowIsAskedFor(Parse(header).value[i].parameters, wanted, bits, negotiated);
  }

  lemma ServerRestriction(asked: seq<Parameter>, wanted: Options)
    requires Compatible(asked, wanted)
    ensures Mentions(asked, SERVER_NO_CONTEXT) ==> wanted.serverNoContext
  {
    NamesDiffer();
    if Mentions(asked, SERVER_NO_CONTEXT) {
      var k :| 0 <= k < |asked| && asked[k].name == SERVER_NO_CONTEXT;
      assert Acceptable(asked[k], wanted);
    }
  }

  lemma WindowIsAskedFor(asked: seq<Parameter>, wanted: Options, bits: nat, negotiated: bool)
    requires Compatible(asked, wanted) && WindowFor(asked, bits, negotiated)
    ensures forall n | 9 <= n <= 15 :: Asks(asked, n) <==> negotiated && n == bits
  {
    hide Acceptable, WindowBitsValue;
    forall n | 9 <= n <= 15 && Asks(asked, n)
      ensures negotiated && n == bits
    {
      var i :| 0 <= i < |asked| && asked[i].name == SERVER_WINDOW && WindowBitsValue(asked[i]) == n;
      assert negotiated;
      var j :| 0 <= j < |asked| && asked[j].name == SERVER_WINDOW && WindowBitsValue(asked[j]) == bits;
      assert i == j;
    }
  }

  // ----- offers as clients make them

  function Only(name: string, value: ValueSyntax): ParameterSyntax {
    ParameterSyntax("", " ", name, "", value)
  }

  lemma OneParameterIsMeant(p: ParameterSyntax)
    requires ValidParameter(p)
    ensures ValidOffer(OfferSyntax("", DEFLATE, [p], ""))
    ensures OfferMeaning(OfferSyntax("", DEFLATE, [p], "")) == Offer(DEFLATE, [ParameterMeaning(p)])
  {
    NamesAreTokens();
    assert ParametersMeaning([p]) == [ParameterMeaning(p)];
  }

  lemma OnlyIsWritten(name: string, value: ValueSyntax, x: string)
    ensures WriteParameter(Only(name, value), x) == "; " + name + WriteValue(value, x)
  {
    hide WriteValue;
    var v := WriteValue(value, x);
    assert "" + v == v && "" + (";" + (" " + (name + v))) == "; " + name + v;
  }

  /** Browsers offer to have the client's window limited; the offer is taken and nothing is limited. */
  lemma BrowserOfferIsTaken(wanted: Options, bits: nat, negotiated: bool)
    requires wanted.deflate
    ensures var header := "permessage-deflate" + ("; " + "client_max_window_bits");
            Negotiable(header, wanted) && (FirstUsable(header, wanted, bits, negotiated) <==> bits == 15 && !negotiated)
  {
    hide Parse;
    var offer := Offer(DEFLATE, [Parameter(CLIENT_WINDOW, "", false)]);
    BrowserOfferIsRead();
    NamesDiffer();
    assert [offer][0] == offer;
    assert WindowFor(offer.parameters, bits, negotiated) <==> bits == 15 && !negotiated;
    assert Usable(offer, wanted);
    assert Chosen([offer], wanted, 0, bits, negotiated) <==> bits == 15 && !negotiated;
  }

  lemma BrowserOfferIsRead()
    ensures Parse("permessage-deflate" + ("; " + "client_max_window_bits")) ==
            Some([Offer(DEFLATE, [Parameter(CLIENT_WINDOW, "", false)])])
  {
    hide WriteOffer, WriteParameter, ReadOffers, IsToken, Lower;
    var p := Only(CLIENT_WINDOW, NoValue);
    var o := OfferSyntax("", DEFLATE, [p], "");
    NamesAreTokens();
    OneParameterIsMeant(p);
    OneParameterIsWritten(DEFLATE, p, "");
    OnlyIsWritten(CLIENT_WINDOW, NoValue, "");
    NothingAfter("; " + CLIENT_WINDOW);
    assert OffersMeaning([o]) == [OfferMeaning(o)];
    OffersAreRead([o]);
  }

  lemma NothingAfter(s: string)
    ensures s + "" == s
  {
  }

  /** A window of 8 cannot be had, so the offer after the one that asks for it is taken. */
  lemma SecondChoiceIsTaken(wanted: Options, bits: nat, negotiated: bool)
    requires wanted.deflate
    ensures var header := "permessage-deflate" + ("; " + "server_max_window_bits" + ("=" + ("8" + (", " + "permessage-deflate"))));
            Negotiable(header, wanted) && (FirstUsable(header, wanted, bits, negotiated) <==> bits == 15 && !negotiated)
  {
    hide Parse;
    var first, second := Offer(DEFLATE, [Parameter(SERVER_WINDOW, "8", true)]), Offer(DEFLATE, []);
    TwoOffersAreRead();
    NamesDiffer();
    var offers := [first, second];
    assert !Acceptable(first.parameters[0], wanted) && !Usable(first, wanted);
    assert Usable(second, wanted) && offers[0] == first && offers[1] == second;
    assert WindowFor(second.parameters, bits, negotiated) <==> bits == 15 && !negotiated;
    assert Chosen(offers, wanted, 1, bits, negotiated) <==> bits == 15 && !negotiated;
  }

  lemma TwoOffersAreRead()
    ensures Parse("permessage-deflate" + ("; " + "server_max_window_bits" + ("=" + ("8" + (", " + "permessage-deflate"))))) ==
            Some([Offer(DEFLATE, [Parameter(SERVER_WINDOW, "8", true)]), Offer(DEFLATE, [])])
  {
    hide WriteOffers, WriteOffer, WriteParameter, OffersMeaning, ReadOffers, IsToken, Lower;
    var p := Only(SERVER_WINDOW, TokenValue("", "8"));
    var a, b := OfferSyntax("", DEFLATE, [p], ""), OfferSyntax(" ", DEFLATE, [], "");
    NamesAreTokens();
    EightIsToken();
    OneParameterIsMeant(p);
    TwoOffersAreWritten(a, b);
    SpacedOfferIsWritten(DEFLATE);
    var rest := ", " + DEFLATE;
    OneParameterIsWritten(DEFLATE, p, rest);
    OnlyIsWritten(SERVER_WINDOW, TokenValue("", "8"), rest);
    assert "" + ("8" + rest) == "8" + rest;
    OffersAreRead([a, b]);
  }

  lemma EightIsToken()
    ensures IsToken("8") && Lower("8") == "8"
  {
  }

  lemma SpacedOfferIsWritten(name: string)
    ensures "," + WriteOffers([OfferSyntax(" ", name, [], "")]) == ", " + name
  {
    assert "" + "" == "" && name + "" == name;
  }
}
