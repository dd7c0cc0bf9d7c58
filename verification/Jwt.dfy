/** ArcAuth's token printer and the two parsers of it, in the gateway and in DBMux (section 3.1 of
    RFC 7515). HMAC-SHA-256 and JSON are parameters; JSON obeys only its inverse law. */
module Jwt {
  import opened Prelude
  import opened Base64Url

  datatype Claims = Claims(sub: string, email: string, role: string, exp: int)

  datatype DbClaims = DbClaims(sub: string, role: string, tenantId: string, exp: int)

  datatype User = User(id: string, email: string)

  datatype Lib = Lib(
    hmac: (string, string) -> seq<Byte>,
    marshal: Claims -> seq<Byte>,
    gatewayJson: seq<Byte> -> Option<Claims>,
    dbmuxJson: seq<Byte> -> Option<DbClaims>)

  /** Reading what was written gives back the fields both sides name. */
  ghost predicate JsonLaw(k: Lib) {
    forall c ::
      k.gatewayJson(k.marshal(c)) == Some(c) && k.dbmuxJson(k.marshal(c)) == Some(DbClaims(c.sub, c.role, "", c.exp))
  }

  const HEADER := "{\"alg\":\"HS256\",\"typ\":\"JWT\"}"

  const LIFETIME := 7 * 24 * 3600

  const BEARER := "Bearer "

  /** The bytes of a text of plain ASCII. */
  function Ascii(s: string): (b: seq<Byte>)
    ensures |b| == |s|
  {
    if s == "" then [] else [s[0] as int % 128] + Ascii(s[1..])
  }

  function Sign(k: Lib, input: string, secret: string): string { Encode(k.hmac(secret, input)) }

  function HeaderPart(): string { Encode(Ascii(HEADER)) }

  function ClaimsOf(u: User, now: int): Claims { Claims(u.id, u.email, "authenticated", now + LIFETIME) }

  /** A token over any payload part, signed as ArcAuth signs. */
  function Signed(k: Lib, secret: string, payload: string): string {
    var sigInput := HeaderPart() + "." + payload;
    sigInput + "." + Sign(k, sigInput, secret)
  }

  function GenerateJWT(k: Lib, secret: string, u: User, now: int): string {
    Signed(k, secret, Encode(k.marshal(ClaimsOf(u, now))))
  }

  function IntoFirst(c: char, parts: seq<string>): (r: seq<string>)
    requires parts != []
    ensures r != []
  {
    [[c] + parts[0]] + parts[1..]
  }

  function SplitDots(s: string): (parts: seq<string>)
    ensures parts != []
  {
    if s == "" then [""]
    else if s[0] == '.' then [""] + SplitDots(s[1..])
    else IntoFirst(s[0], SplitDots(s[1..]))
  }

  function TrimBearer(s: string): string {
    if |s| >= |BEARER| && s[..|BEARER|] == BEARER then s[|BEARER|..] else s
  }

  /** unicode.IsSpace. */
  predicate IsSpace(c: char) {
    || '\t' <= c <= '\r' || c == ' ' || c == '\U{0085}' || c == '\U{00A0}' || c == '\U{1680}'
    || '\U{2000}' <= c <= '\U{200A}' || c == '\U{2028}' || c == '\U{2029}' || c == '\U{202F}'
    || c == '\U{205F}' || c == '\U{3000}'
  }

  function TrimSpace(s: string): string
    decreases |s|
  {
    if s == "" then ""
    else if IsSpace(s[0]) then TrimSpace(s[1..])
    else if IsSpace(s[|s| - 1]) then TrimSpace(s[..|s| - 1])
    else s
  }

  predicate Expired(exp: int, now: int) { exp > 0 && now > exp }

  /** The payload of a well-formed, correctly signed token, decoded after `pad`. */
  function Payload(k: Lib, token: string, secret: string, pad: string -> string): Option<seq<Byte>> {
    var parts := SplitDots(token);
    if |parts| != 3 then None
    else if Sign(k, parts[0] + "." + parts[1], secret) != parts[2] then None
    else Decode(pad(parts[1]))
  }

  function GatewayParse(k: Lib, tokenStr: string, secret: string, now: int): Option<Claims> {
    match Payload(k, TrimBearer(tokenStr), secret, GatewayPad)
    case None => None
    case Some(decoded) =>
      match k.gatewayJson(decoded)
      case None => None
      case Some(claims) => if Expired(claims.exp, now) then None else Some(claims)
  }

  function DbmuxParse(k: Lib, tokenStr: string, secret: string, now: int): Option<DbClaims> {
    if secret == "" then None
    else
      match Payload(k, TrimBearer(TrimSpace(tokenStr)), secret, DbmuxPad)
      case None => None
      case Some(decoded) =>
        match k.dbmuxJson(decoded)
        case None => None
        case Some(claims) => if Expired(claims.exp, now) then None else Some(claims)
  }

  lemma {:induction false} SplitPlain(a: string, rest: string)
    requires '.' !in a
    ensures SplitDots(a) == [a]
    ensures SplitDots(a + "." + rest) == [a] + SplitDots(rest)
  {
    if a == "" {
      assert ("." + rest)[1..] == rest && a + "." + rest == "." + rest;
    } else {
      assert (a + "." + rest)[1..] == a[1..] + "." + rest;
      SplitPlain(a[1..], rest);
      assert a[0] in a && [a[0]] + a[1..] == a;
    }
  }

  /** A token with no blanks at its ends comes through both parsers' trimming, bearer prefix or not. */
  lemma TrimsToToken(h: string, rest: string)
    requires Plain(h) && |h| >= |BEARER| && (rest == "" || !IsSpace(rest[|rest| - 1]))
    ensures var t := h + rest;
      && TrimBearer(t) == t && TrimBearer(BEARER + t) == t
      && TrimSpace(t) == t && TrimSpace(BEARER + t) == BEARER + t
  {
    var t := h + rest;
    assert h[0] in h && h[6] in h && h[|h| - 1] in h;
    assert t[..7][6] == h[6] != ' ' == BEARER[6];
    assert (BEARER + t)[..7] == BEARER && (BEARER + t)[7..] == t;
    assert !IsSpace(t[0]) && !IsSpace(t[|t| - 1]);
    assert (BEARER + t)[|BEARER + t| - 1] == t[|t| - 1];
  }

  lemma PlainFacts(s: string)
    requires Plain(s)
    ensures '.' !in s && (s != "" ==> !IsSpace(s[|s| - 1]))
  {
    assert Value('.') == None;
    if s != "" {
      assert s[|s| - 1] in s;
    }
  }

  lemma SignedParts(k: Lib, secret: string, p: string)
    requires '.' !in p
    ensures var t := Signed(k, secret, p);
      && SplitDots(t) == [HeaderPart(), p, Sign(k, HeaderPart() + "." + p, secret)]
      && TrimBearer(t) == t && TrimBearer(BEARER + t) == t
      && TrimSpace(t) == t && TrimSpace(BEARER + t) == BEARER + t
  {
    hide Encode, SplitDots, TrimBearer, TrimSpace, Plain, Ascii;
    var h := HeaderPart();
    var s := Sign(k, h + "." + p, secret);
    EncodeShape(Ascii(HEADER));
    EncodeShape(k.hmac(secret, h + "." + p));
    var t := Signed(k, secret, p);
    assert t == h + "." + (p + "." + s) == h + ("." + p + "." + s);
    PlainFacts(h);
    PlainFacts(s);
    SplitPlain(h, p + "." + s);
    SplitPlain(p, s);
    SplitPlain(s, "");
    assert |h| == 36;
    TrimsToToken(h, "." + p + "." + s);
  }

  lemma TokenParts(k: Lib, secret: string, u: User, now: int)
    ensures var t := GenerateJWT(k, secret, u, now);
      var p := Encode(k.marshal(ClaimsOf(u, now)));
      && SplitDots(t) == [HeaderPart(), p, Sign(k, HeaderPart() + "." + p, secret)]
      && TrimBearer(t) == t && TrimBearer(BEARER + t) == t
      && TrimSpace(t) == t && TrimSpace(BEARER + t) == BEARER + t
  {
    hide Encode, Plain;
    var p := Encode(k.marshal(ClaimsOf(u, now)));
    EncodeShape(k.marshal(ClaimsOf(u, now)));
    PlainFacts(p);
    SignedParts(k, secret, p);
  }

  lemma {:induction false} AsciiBytes(s: string)
    requires forall i :: 0 <= i < |s| ==> s[i] < '\U{0080}'
    ensures forall i :: 0 <= i < |s| ==> Ascii(s)[i] == s[i] as int
  {
    if s != "" {
      AsciiBytes(s[1..]);
      assert forall i :: 0 < i < |s| ==> s[i] == s[1..][i - 1] && Ascii(s)[i] == Ascii(s[1..])[i - 1];
    }
  }

  /** A token is three parts: the header, naming the algorithm; the claims of that user, good for a week; and
      the signature of the two with the dot between them. */
  lemma TokenLayout(k: Lib, secret: string, u: User, now: int)
    ensures var parts := SplitDots(GenerateJWT(k, secret, u, now));
      && |parts| == 3
      && Decode(GatewayPad(parts[0])) == Some(Ascii("{\"alg\":\"HS256\",\"typ\":\"JWT\"}"))
      && Decode(GatewayPad(parts[1])) == Some(k.marshal(Claims(u.id, u.email, "authenticated", now + 604800)))
      && Decode(GatewayPad(parts[2])) == Some(k.hmac(secret, parts[0] + "." + parts[1]))
  {
    hide Encode, Decode, GatewayPad, DbmuxPad, SplitDots, TrimBearer, TrimSpace, GenerateJWT, Ascii;
    TokenParts(k, secret, u, now);
    var c := ClaimsOf(u, now);
    assert c == Claims(u.id, u.email, "authenticated", now + 604800);
    DecodeUndoesEncode(Ascii(HEADER));
    DecodeUndoesEncode(k.marshal(c));
    DecodeUndoesEncode(k.hmac(secret, HeaderPart() + "." + Encode(k.marshal(c))));
  }

  /** Any user's token names that user, in both services, for a week, with or without the bearer prefix; after
      the week in neither. */
  lemma TokenRoundTrip(k: Lib, secret: string, u: User, issued: int, now: int, bearer: bool)
    requires JsonLaw(k) && secret != "" && issued >= 0
    ensures var t := GenerateJWT(k, secret, u, issued);
      var sent, end := if bearer then "Bearer " + t else t, issued + 604800;
      && GatewayParse(k, sent, secret, now) ==
           (if now <= end then Some(Claims(u.id, u.email, "authenticated", end)) else None)
      && DbmuxParse(k, sent, secret, now) ==
           (if now <= end then Some(DbClaims(u.id, "authenticated", "", end)) else None)
  {
    hide Encode, Decode, GatewayPad, DbmuxPad, SplitDots, TrimBearer, TrimSpace, GenerateJWT, HeaderPart;
    TokenParts(k, secret, u, issued);
    DecodeUndoesEncode(k.marshal(ClaimsOf(u, issued)));
  }

  /** Whatever claims a well-signed token carries, both services return them, up to their expiry if they name one
      after time zero, and otherwise for good. */
  lemma ClaimsRoundTrip(k: Lib, secret: string, c: Claims, now: int, bearer: bool)
    requires JsonLaw(k) && secret != ""
    ensures var t := Signed(k, secret, Encode(k.marshal(c)));
      var sent := if bearer then "Bearer " + t else t;
      && GatewayParse(k, sent, secret, now) == (if c.exp <= 0 || now <= c.exp then Some(c) else None)
      && DbmuxParse(k, sent, secret, now) ==
           (if c.exp <= 0 || now <= c.exp then Some(DbClaims(c.sub, c.role, "", c.exp)) else None)
  {
    hide Encode, Decode, GatewayPad, DbmuxPad, SplitDots, TrimBearer, TrimSpace, Signed, HeaderPart, Plain;
    var p := Encode(k.marshal(c));
    EncodeShape(k.marshal(c));
    PlainFacts(p);
    SignedParts(k, secret, p);
    DecodeUndoesEncode(k.marshal(c));
  }

  /** The fields both services name. */
  predicate SameAnswer(g: Option<Claims>, d: Option<DbClaims>) {
    if g.Some? then d.Some? && d.value.sub == g.value.sub && d.value.role == g.value.role && d.value.exp == g.value.exp
    else d.None?
  }

  /** Both services find three parts and the right signature. */
  predicate WellSigned(k: Lib, t: string, secret: string) {
    |SplitDots(t)| == 3 && Sign(k, SplitDots(t)[0] + "." + SplitDots(t)[1], secret) == SplitDots(t)[2]
  }

  /** What decides whether the answers can ever differ: the gateway reads a payload of length 4k + 1, which
      DBMux does not decode, or one signed with an empty secret, which DBMux refuses, or the two JSON readers
      differ on the bytes that both decode. */
  predicate ReadAlike(k: Lib, payload: string, secret: string) {
    match Decode(GatewayPad(payload))
    case None => true
    case Some(b) =>
      if |payload| % 4 == 1 || secret == "" then k.gatewayJson(b).None?
      else SameAnswer(k.gatewayJson(b), k.dbmuxJson(b))
  }

  lemma PayloadsRead(k: Lib, payload: string)
    ensures Decode(DbmuxPad(payload)) == if |payload| % 4 == 1 then None else Decode(GatewayPad(payload))
  {
    hide Decode;
    if |payload| % 4 == 1 {
      ThreePadsFail(payload);
    } else {
      SamePadding(payload);
    }
  }

  /** The bytes each service reads its claims from, if it gets as far as that. */
  function GatewayBytes(k: Lib, tokenStr: string, secret: string): Option<seq<Byte>> {
    Payload(k, TrimBearer(tokenStr), secret, GatewayPad)
  }

  function DbmuxBytes(k: Lib, tokenStr: string, secret: string): Option<seq<Byte>> {
    if secret == "" then None else Payload(k, TrimBearer(TrimSpace(tokenStr)), secret, DbmuxPad)
  }

  /** Neither takes the text, or each JSON reader makes the same of its own service's bytes. */
  predicate SameClaims(k: Lib, tokenStr: string, secret: string) {
    var g, d := GatewayBytes(k, tokenStr, secret), DbmuxBytes(k, tokenStr, secret);
    SameAnswer(if g.Some? then k.gatewayJson(g.value) else None, if d.Some? then k.dbmuxJson(d.value) else None)
  }

  /** On every text and with every secret, the two services answer alike at all times exactly when they read the
      same claims. */
  lemma ServicesAgreeIff(k: Lib, tokenStr: string, secret: string)
    ensures (forall now :: SameAnswer(GatewayParse(k, tokenStr, secret, now), DbmuxParse(k, tokenStr, secret, now)))
      <==> SameClaims(k, tokenStr, secret)
  {
    hide Payload, TrimBearer, TrimSpace;
    if !SameClaims(k, tokenStr, secret) {
      var b, c := GatewayBytes(k, tokenStr, secret), DbmuxBytes(k, tokenStr, secret);
      var g := if b.Some? then k.gatewayJson(b.value) else None;
      var d := if c.Some? then k.dbmuxJson(c.value) else None;
      var now := if g.None? then d.value.exp
                 else if d.None? || g.value.exp <= d.value.exp then g.value.exp
                 else d.value.exp;
      assert !SameAnswer(GatewayParse(k, tokenStr, secret, now), DbmuxParse(k, tokenStr, secret, now));
    }
  }

  /** For a text without blanks around it that means: it is not well signed, or its payload is read alike. */
  lemma TrimmedClaimsIff(k: Lib, tokenStr: string, secret: string)
    requires TrimSpace(tokenStr) == tokenStr
    ensures var t := TrimBearer(tokenStr);
      SameClaims(k, tokenStr, secret) <==> (WellSigned(k, t, secret) ==> ReadAlike(k, SplitDots(t)[1], secret))
  {
    hide Decode, GatewayPad, DbmuxPad, SplitDots, TrimBearer, TrimSpace, Sign;
    var t := TrimBearer(tokenStr);
    if WellSigned(k, t, secret) {
      PayloadsRead(k, SplitDots(t)[1]);
    }
  }

  /** A text that ends in a blank is never taken by the gateway: no signature does. */
  lemma BlankEndRefused(k: Lib, tokenStr: string, secret: string)
    requires tokenStr != "" && IsSpace(tokenStr[|tokenStr| - 1])
    ensures GatewayBytes(k, tokenStr, secret) == None
  {
    hide Sign, Decode, GatewayPad, SplitDots;
    var t := TrimBearer(tokenStr);
    if t == "" {
      SplitPlain("", "");
    } else {
      var n := |t| - 1;
      var body, blank := t[..n], [t[n]];
      assert t == body + blank && t[n] == tokenStr[|tokenStr| - 1];
      SplitTail(body, blank);
      var parts := SplitDots(t);
      if |parts| == 3 {
        var input := parts[0] + "." + parts[1];
        SignIsPlain(k, input, secret);
        assert parts[2][|parts[2]| - 1] == t[n];
      }
    }
  }

  lemma SignIsPlain(k: Lib, input: string, secret: string)
    ensures var s := Sign(k, input, secret); '.' !in s && (s != "" ==> !IsSpace(s[|s| - 1]))
  {
    EncodeShape(k.hmac(secret, input));
    PlainFacts(Encode(k.hmac(secret, input)));
  }

  /** Without a line break in the payload only what the JSON readers make of its bytes matters. */
  lemma JsonDecides(k: Lib, payload: string, secret: string)
    requires secret != "" && forall c :: c in payload ==> !IsLineBreak(c)
    ensures ReadAlike(k, payload, secret) <==>
      match Decode(GatewayPad(payload))
      case None => true
      case Some(b) => SameAnswer(k.gatewayJson(b), k.dbmuxJson(b))
  {
    hide Decode;
    PaddingsAgreeIff(payload);
    PayloadsRead(k, payload);
  }

  /** With one, the services can differ on a correctly signed token: the gateway takes the claims and DBMux
      refuses them. */
  lemma LineBreakDivides(k: Lib, secret: string, c: Claims, now: int)
    requires JsonLaw(k) && |k.marshal(c)| % 3 == 0
    ensures var t := Signed(k, secret, Encode(k.marshal(c)) + "\n");
      && GatewayParse(k, t, secret, now) == (if Expired(c.exp, now) then None else Some(c))
      && DbmuxParse(k, t, secret, now) == None
  {
    hide Encode, Decode, GatewayPad, DbmuxPad, SplitDots, TrimBearer, TrimSpace, Signed, HeaderPart, Plain, Sign;
    var b := k.marshal(c);
    EncodeShape(b);
    PlainFacts(Encode(b));
    LineBreakSplits(b);
    SignedParts(k, secret, Encode(b) + "\n");
  }

  lemma {:induction false} TrimTrailing(t: string, blanks: string)
    requires t != "" && !IsSpace(t[0]) && TrimSpace(t) == t && forall c :: c in blanks ==> IsSpace(c)
    ensures TrimSpace(t + blanks) == t
    decreases |blanks|
  {
    if blanks == "" {
      assert t + blanks == t;
    } else {
      var n := |blanks| - 1;
      assert blanks[n] in blanks && (t + blanks)[..|t + blanks| - 1] == t + blanks[..n];
      TrimTrailing(t, blanks[..n]);
    }
  }

  function IntoLast(parts: seq<string>, tail: string): seq<string>
    requires parts != []
  {
    parts[..|parts| - 1] + [parts[|parts| - 1] + tail]
  }

  lemma LastAndFirst(c: char, parts: seq<string>, tail: string)
    requires parts != []
    ensures IntoLast([""] + parts, tail) == [""] + IntoLast(parts, tail)
    ensures IntoLast(IntoFirst(c, parts), tail) == IntoFirst(c, IntoLast(parts, tail))
  {
    if |parts| == 1 {
      assert [c] + (parts[0] + tail) == ([c] + parts[0]) + tail;
    }
  }

  lemma {:induction false} SplitTail(t: string, tail: string)
    requires '.' !in tail
    ensures SplitDots(t + tail) == IntoLast(SplitDots(t), tail)
  {
    if t == "" {
      assert t + tail == tail == "" + tail;
      SplitPlain(tail, "");
    } else {
      hide IntoFirst, IntoLast;
      assert (t + tail)[1..] == t[1..] + tail;
      SplitTail(t[1..], tail);
      LastAndFirst(t[0], SplitDots(t[1..]), tail);
    }
  }

  /** So a token with blanks behind it is accepted by DBMux, which trims them, and never by the gateway. */
  lemma TrailingBlanksDivide(k: Lib, secret: string, u: User, issued: int, now: int, blanks: string)
    requires JsonLaw(k) && secret != "" && issued >= 0 && blanks != "" && forall c :: c in blanks ==> IsSpace(c)
    ensures var t, c := GenerateJWT(k, secret, u, issued), ClaimsOf(u, issued);
      && GatewayParse(k, t + blanks, secret, now) == None
      && DbmuxParse(k, t + blanks, secret, now) == DbmuxParse(k, t, secret, now)
      && (now <= c.exp ==> DbmuxParse(k, t + blanks, secret, now) == Some(DbClaims(c.sub, c.role, "", c.exp)))
  {
    hide Encode, Decode, GatewayPad, DbmuxPad, SplitDots, TrimBearer, TrimSpace, Plain, Sign, HeaderPart, Signed;
    hide Payload;
    var t := GenerateJWT(k, secret, u, issued);
    TokenParts(k, secret, u, issued);
    TokenRoundTrip(k, secret, u, issued, now, false);
    TokenStart(k, secret, u, issued);
    TrimTrailing(t, blanks);
    assert (t + blanks)[|t + blanks| - 1] == blanks[|blanks| - 1] && blanks[|blanks| - 1] in blanks;
    BlankEndRefused(k, t + blanks, secret);
  }

  lemma {:induction false} TrimLeading(blanks: string, t: string)
    requires TrimSpace(t) == t && forall c :: c in blanks ==> IsSpace(c)
    ensures TrimSpace(blanks + t) == t
  {
    if blanks == "" {
      assert blanks + t == t;
    } else {
      assert blanks[0] in blanks && (blanks + t)[1..] == blanks[1..] + t;
      TrimLeading(blanks[1..], t);
    }
  }

  lemma FirstGrows(c: char, first: string, rest: seq<string>)
    ensures IntoFirst(c, [first] + rest) == [[c] + first] + rest
  {
  }

  lemma {:induction false} SplitHead(a: string, t: string)
    requires '.' !in a
    ensures SplitDots(a + t) == [a + SplitDots(t)[0]] + SplitDots(t)[1..]
  {
    if a == "" {
      assert a + t == t && "" + SplitDots(t)[0] == SplitDots(t)[0];
    } else {
      hide IntoFirst;
      assert (a + t)[1..] == a[1..] + t && a[0] in a;
      SplitHead(a[1..], t);
      var parts := SplitDots(t);
      FirstGrows(a[0], a[1..] + parts[0], parts[1..]);
      assert [a[0]] + (a[1..] + parts[0]) == a + parts[0];
    }
  }

  /** Blanks in front of a token are part of its header for the gateway, which then takes it exactly if the
      signature happens to fit that header too; DBMux trims them. */
  lemma LeadingBlanksDivide(k: Lib, secret: string, u: User, issued: int, now: int, blanks: string)
    requires JsonLaw(k) && secret != "" && issued >= 0 && blanks != "" && forall c :: c in blanks ==> IsSpace(c)
    ensures var t, p := GenerateJWT(k, secret, u, issued), Encode(k.marshal(ClaimsOf(u, issued)));
      var shifted, input := blanks + HeaderPart() + "." + p, HeaderPart() + "." + p;
      && GatewayParse(k, blanks + t, secret, now) ==
           (if Sign(k, shifted, secret) == Sign(k, input, secret) then GatewayParse(k, t, secret, now) else None)
      && DbmuxParse(k, blanks + t, secret, now) == DbmuxParse(k, t, secret, now)
  {
    hide Encode, Decode, GatewayPad, DbmuxPad, SplitDots, TrimSpace, Plain, Sign, HeaderPart, Signed, GenerateJWT;
    var t, p := GenerateJWT(k, secret, u, issued), Encode(k.marshal(ClaimsOf(u, issued)));
    TokenParts(k, secret, u, issued);
    TrimLeading(blanks, t);
    assert blanks[0] in blanks;
    SplitHead(blanks, t);
    assert TrimBearer(blanks + t) == blanks + t by { BlankIsNoBearer(blanks + t); }
    hide TrimBearer;
    assert SplitDots(blanks + t)[0] + "." + p == blanks + HeaderPart() + "." + p;
  }

  lemma BlankIsNoBearer(s: string)
    requires s != "" && IsSpace(s[0])
    ensures TrimBearer(s) == s
  {
    assert |s| >= |BEARER| ==> s[..|BEARER|][0] == s[0];
  }

  lemma TokenStart(k: Lib, secret: string, u: User, now: int)
    ensures var t := GenerateJWT(k, secret, u, now); |t| >= |BEARER| && !IsSpace(t[0])
  {
    hide Encode, Ascii, Sign;
    EncodeShape(Ascii(HEADER));
    var h := HeaderPart();
    assert |h| == 36 && h[0] in h;
    assert GenerateJWT(k, secret, u, now)[..|h|] == h;
  }
}
