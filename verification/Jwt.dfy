/**
 The web tokens (internal/server/auth/jwt.go): unpadded base64url (section 5 of RFC 4648) and the
 compact form of section 7.1 of RFC 7515. The MAC and the JSON encoding of the claims are arbitrary
 functions; the claims' decoder undoes their encoder. Times are Unix seconds.
 */
module Jwt {
  import opened Wire

  // ---------------------------------------------------------------- base64url

  type Sextet = x: int | 0 <= x < 64

  function Digit(v: Sextet): char {
    if v < 26 then ('A' as int + v) as char
    else if v < 52 then ('a' as int + v - 26) as char
    else if v < 62 then ('0' as int + v - 52) as char
    else if v == 62 then '-' else '_'
  }

  function ValueOf(c: char): Option<Sextet> {
    if 'A' <= c <= 'Z' then Some(c as int - 'A' as int)
    else if 'a' <= c <= 'z' then Some(c as int - 'a' as int + 26)
    else if '0' <= c <= '9' then Some(c as int - '0' as int + 52)
    else if c == '-' then Some(62) else if c == '_' then Some(63) else None
  }

  lemma DigitValue(v: Sextet)
    ensures ValueOf(Digit(v)) == Some(v) && Digit(v) != '.' && Digit(v) != '\r' && Digit(v) != '\n'
  {
  }

  function Sextet0(a: Byte): Sextet { a / 4 }

  function Sextet1(a: Byte, b: Byte): Sextet { a % 4 * 16 + b / 16 }

  function Sextet2(b: Byte, c: Byte): Sextet { b % 16 * 4 + c / 64 }

  function Sextet3(c: Byte): Sextet { c % 64 }

  /** base64.RawURLEncoding.EncodeToString: missing bytes of the last quantum count as zero. */
  function Encode(data: seq<Byte>): string {
    if data == [] then ""
    else if |data| == 1 then [Digit(Sextet0(data[0])), Digit(Sextet1(data[0], 0))]
    else if |data| == 2 then [Digit(Sextet0(data[0])), Digit(Sextet1(data[0], data[1])), Digit(Sextet2(data[1], 0))]
    else [Digit(Sextet0(data[0])), Digit(Sextet1(data[0], data[1])), Digit(Sextet2(data[1], data[2])), Digit(Sextet3(data[2]))]
         + Encode(data[3..])
  }

  /** The sextets of a text; line breaks are skipped, anything else outside the alphabet is an error. */
  function Sextets(s: string): Option<seq<Sextet>> {
    if s == "" then Some([])
    else if s[0] == '\r' || s[0] == '\n' then Sextets(s[1..])
    else match (ValueOf(s[0]), Sextets(s[1..]))
      case (Some(v), Some(vs)) => Some([v] + vs)
      case _ => None
  }

  function FirstByte(a: Sextet, b: Sextet): Byte { a * 4 + b / 16 }

  function SecondByte(b: Sextet, c: Sextet): Byte { b % 16 * 16 + c / 4 }

  function ThirdByte(c: Sextet, d: Sextet): Byte { c % 4 * 64 + d }

  /** Whole and partial quanta; a lone last sextet is an error, spare low bits are ignored. */
  function Bytes(vs: seq<Sextet>): Option<seq<Byte>> {
    if vs == [] then Some([])
    else if |vs| == 1 then None
    else if |vs| == 2 then Some([FirstByte(vs[0], vs[1])])
    else if |vs| == 3 then Some([FirstByte(vs[0], vs[1]), SecondByte(vs[1], vs[2])])
    else match Bytes(vs[4..])
      case Some(rest) => Some([FirstByte(vs[0], vs[1]), SecondByte(vs[1], vs[2]), ThirdByte(vs[2], vs[3])] + rest)
      case None => None
  }

  /** base64.RawURLEncoding.DecodeString */
  function Decode(s: string): Option<seq<Byte>> {
    match Sextets(s)
    case Some(vs) => Bytes(vs)
    case None => None
  }

  /** The sextets that Encode prints. */
  function Quanta(data: seq<Byte>): seq<Sextet> {
    if data == [] then []
    else if |data| == 1 then [Sextet0(data[0]), Sextet1(data[0], 0)]
    else if |data| == 2 then [Sextet0(data[0]), Sextet1(data[0], data[1]), Sextet2(data[1], 0)]
    else [Sextet0(data[0]), Sextet1(data[0], data[1]), Sextet2(data[1], data[2]), Sextet3(data[2])] + Quanta(data[3..])
  }

  function Digits(vs: seq<Sextet>): string {
    if vs == [] then "" else [Digit(vs[0])] + Digits(vs[1..])
  }

  lemma {:induction false} SextetsOfDigits(vs: seq<Sextet>)
    ensures Sextets(Digits(vs)) == Some(vs)
    ensures forall c <- Digits(vs) :: c != '.'
  {
    if vs != [] {
      DigitValue(vs[0]);
      SextetsOfDigits(vs[1..]);
      assert Digits(vs)[1..] == Digits(vs[1..]);
      assert vs == [vs[0]] + vs[1..];
    }
  }

  lemma {:induction false} DigitsConcat(a: seq<Sextet>, b: seq<Sextet>)
    ensures Digits(a + b) == Digits(a) + Digits(b)
  {
    if a == [] {
      assert a + b == b;
    } else {
      assert (a + b)[1..] == a[1..] + b;
      DigitsConcat(a[1..], b);
    }
  }

  lemma DigitsOfFew(a: Sextet, b: Sextet, c: Sextet, d: Sextet)
    ensures Digits([a, b]) == [Digit(a), Digit(b)]
    ensures Digits([a, b, c]) == [Digit(a), Digit(b), Digit(c)]
    ensures Digits([a, b, c, d]) == [Digit(a), Digit(b), Digit(c), Digit(d)]
  {
    assert [d][1..] == [] && Digits([d]) == [Digit(d)];
    assert [c][1..] == [] && Digits([c]) == [Digit(c)];
    assert [b][1..] == [] && Digits([b]) == [Digit(b)];
    assert [c, d][1..] == [d] && Digits([c, d]) == [Digit(c), Digit(d)];
    assert [b, c][1..] == [c] && Digits([b, c]) == [Digit(b), Digit(c)];
    assert [b, c, d][1..] == [c, d] && Digits([b, c, d]) == [Digit(b), Digit(c), Digit(d)];
    assert [a, b][1..] == [b] && [a, b, c][1..] == [b, c] && [a, b, c, d][1..] == [b, c, d];
  }

  lemma {:induction false} EncodeIsDigits(data: seq<Byte>)
    ensures Encode(data) == Digits(Quanta(data))
  {
    if |data| == 1 {
      DigitsOfFew(Sextet0(data[0]), Sextet1(data[0], 0), 0, 0);
    } else if |data| == 2 {
      DigitsOfFew(Sextet0(data[0]), Sextet1(data[0], data[1]), Sextet2(data[1], 0), 0);
    } else if |data| > 2 {
      var q: seq<Sextet> := [Sextet0(data[0]), Sextet1(data[0], data[1]), Sextet2(data[1], data[2]), Sextet3(data[2])];
      EncodeIsDigits(data[3..]);
      DigitsConcat(q, Quanta(data[3..]));
      DigitsOfFew(q[0], q[1], q[2], q[3]);
    }
  }

  /** Three bytes survive being cut into four sextets. */
  lemma Repack(a: Byte, b: Byte, c: Byte)
    ensures FirstByte(Sextet0(a), Sextet1(a, b)) == a
    ensures SecondByte(Sextet1(a, b), Sextet2(b, c)) == b
    ensures ThirdByte(Sextet2(b, c), Sextet3(c)) == c
  {
  }

  lemma {:induction false} BytesOfQuanta(data: seq<Byte>)
    ensures Bytes(Quanta(data)) == Some(data)
  {
    hide FirstByte, SecondByte, ThirdByte, Sextet0, Sextet1, Sextet2, Sextet3;
    if |data| == 1 {
      Repack(data[0], 0, 0);
      assert data == [data[0]];
    } else if |data| == 2 {
      Repack(data[0], data[1], 0);
      assert data == [data[0], data[1]];
    } else if |data| > 2 {
      Repack(data[0], data[1], data[2]);
      BytesOfQuanta(data[3..]);
      assert Quanta(data)[4..] == Quanta(data[3..]);
      assert data == [data[0], data[1], data[2]] + data[3..];
    }
  }

  /** Decoding undoes encoding, and the encoding has no dot. */
  lemma Base64RoundTrip(data: seq<Byte>)
    ensures Decode(Encode(data)) == Some(data)
    ensures forall c <- Encode(data) :: c != '.'
  {
    EncodeIsDigits(data);
    SextetsOfDigits(Quanta(data));
    BytesOfQuanta(data);
  }

  // ---------------------------------------------------------------- splitting

  /** strings.Split at a one-character separator. */
  function Split(s: string, sep: char): (r: seq<string>)
    ensures |r| > 0
  {
    if s == "" then [""]
    else
      var rest := Split(s[1..], sep);
      if s[0] == sep then [""] + rest else [[s[0]] + rest[0]] + rest[1..]
  }

  function Join(parts: seq<string>, sep: char): string
    requires |parts| > 0
  {
    if |parts| == 1 then parts[0] else parts[0] + [sep] + Join(parts[1..], sep)
  }

  predicate Free(s: string, sep: char) {
    forall c <- s :: c != sep
  }

  lemma {:induction false} SplitHead(a: string, rest: string, sep: char)
    requires Free(a, sep)
    ensures Split(a + [sep] + rest, sep) == [a] + Split(rest, sep)
  {
    var s := a + [sep] + rest;
    if a == "" {
      assert s[1..] == rest;
    } else {
      assert a[0] in a && forall c :: c in a[1..] ==> c in a;
      assert s[1..] == a[1..] + [sep] + rest && s[0] == a[0];
      SplitHead(a[1..], rest, sep);
      assert [a[0]] + a[1..] == a;
    }
  }

  lemma {:induction false} SplitFree(a: string, sep: char)
    requires Free(a, sep)
    ensures Split(a, sep) == [a]
  {
    if a != "" {
      assert a[0] in a && forall c :: c in a[1..] ==> c in a;
      SplitFree(a[1..], sep);
      assert [a[0]] + a[1..] == a;
    }
  }

  /** Splitting loses nothing: the pieces are free of the separator and joining them gives the text. */
  lemma {:induction false} SplitJoin(s: string, sep: char)
    ensures Join(Split(s, sep), sep) == s
    ensures forall p <- Split(s, sep) :: Free(p, sep)
  {
    if s != "" {
      SplitJoin(s[1..], sep);
      var rest, parts := Split(s[1..], sep), Split(s, sep);
      assert s == [s[0]] + s[1..];
      if s[0] == sep {
        assert parts[1..] == rest;
        assert "" + [sep] + s[1..] == s;
      } else {
        assert parts[1..] == rest[1..];
        if |rest| > 1 {
          assert [s[0]] + rest[0] + [sep] + Join(rest[1..], sep) == [s[0]] + (rest[0] + [sep] + Join(rest[1..], sep));
        }
        forall p | p in parts ensures Free(p, sep) {
          assert rest[0] in rest;
          assert p == parts[0] || p in rest;
        }
      }
    }
  }

  // ---------------------------------------------------------------- tokens

  datatype Claims = Claims(sub: string, role: string, exp: int)

  datatype Verdict = Verified(claims: Claims) | Malformed | InvalidSignature | BadPayload | Expired

  const LIFETIME: int := 24 * 60 * 60

  /** The service: its header, claims codec and keyed MAC. */
  datatype Service = Service(header: seq<Byte>, toJson: Claims -> seq<Byte>, fromJson: seq<Byte> -> Option<Claims>, mac: string -> seq<Byte>)

  ghost predicate CodecOk(s: Service) {
    forall c :: s.fromJson(s.toJson(c)) == Some(c)
  }

  function IssueJWT(s: Service, userId: string, role: string, now: int): string {
    var msg := Encode(s.header) + "." + Encode(s.toJson(Claims(userId, role, now + LIFETIME)));
    msg + "." + Encode(s.mac(msg))
  }

  function VerifyJWT(s: Service, token: string, now: int): Verdict {
    var parts := Split(token, '.');
    if |parts| != 3 then Malformed
    else if Encode(s.mac(parts[0] + "." + parts[1])) != parts[2] then InvalidSignature
    else match Decode(parts[1])
      case None => BadPayload
      case Some(raw) =>
        match s.fromJson(raw)
        case None => BadPayload
        case Some(c) => if now > c.exp then Expired else Verified(c)
  }

  lemma SplitToken(header: string, payload: string, sig: string)
    requires Free(header, '.') && Free(payload, '.') && Free(sig, '.')
    ensures Split(header + "." + payload + "." + sig, '.') == [header, payload, sig]
  {
    assert header + "." + payload + "." + sig == header + ['.'] + (payload + ['.'] + sig);
    SplitHead(header, payload + ['.'] + sig, '.');
    SplitHead(payload, sig, '.');
    SplitFree(sig, '.');
  }

  /** The alphabet of section 5 of RFC 4648, by code point: A-Z, a-z, 0-9, '-' and '_'. */
  lemma Alphabet(v: Sextet)
    ensures Digit(v) as int == if v < 26 then 65 + v else if v < 52 then 71 + v else if v < 62 then v - 4 else if v == 62 then 45 else 95
  {
  }

  /** Three bytes are cut, as one 24-bit number, into four sextets, most significant first. */
  lemma QuantumValue(a: Byte, b: Byte, c: Byte)
    ensures Sextet0(a) * 262144 + Sextet1(a, b) * 4096 + Sextet2(b, c) * 64 + Sextet3(c) == a * 65536 + b * 256 + c
  {
  }

  /**
   What a token says: its first part decodes to the header, its second to the claims for the user and role
   with an expiry a day ahead, and its third to the MAC of the first two.
   */
  lemma IssuedTokenSays(s: Service, userId: string, role: string, issued: int)
    ensures var parts := Split(IssueJWT(s, userId, role, issued), '.');
            && |parts| == 3
            && Decode(parts[0]) == Some(s.header)
            && Decode(parts[1]) == Some(s.toJson(Claims(userId, role, issued + 86400)))
            && Decode(parts[2]) == Some(s.mac(parts[0] + "." + parts[1]))
  {
    var claims := Claims(userId, role, issued + 86400);
    var header, payload := Encode(s.header), Encode(s.toJson(claims));
    var sig := Encode(s.mac(header + "." + payload));
    Base64RoundTrip(s.header);
    Base64RoundTrip(s.toJson(claims));
    Base64RoundTrip(s.mac(header + "." + payload));
    SplitToken(header, payload, sig);
  }

  /**
   Round trip: for every user, role and service, the issued token has exactly three parts and
   verifies to the claims it was issued for at every time up to and including its expiry, and as
   expired at every later time.
   */
  lemma IssuedTokenVerifies(s: Service, userId: string, role: string, issued: int, now: int)
    requires CodecOk(s)
    ensures var token := IssueJWT(s, userId, role, issued); var claims := Claims(userId, role, issued + 86400);
            && |Split(token, '.')| == 3
            && VerifyJWT(s, token, now) == if now <= issued + 86400 then Verified(claims) else Expired
  {
    var claims := Claims(userId, role, issued + LIFETIME);
    var header, payload := Encode(s.header), Encode(s.toJson(claims));
    var sig := Encode(s.mac(header + "." + payload));
    Base64RoundTrip(s.header);
    Base64RoundTrip(s.toJson(claims));
    Base64RoundTrip(s.mac(header + "." + payload));
    SplitToken(header, payload, sig);
  }

  /** The token made of this header and payload is acceptable, said without splitting. */
  ghost predicate AcceptableAs(s: Service, token: string, now: int, c: Claims, header: string, payload: string) {
    && Free(header, '.') && Free(payload, '.')
    && token == header + "." + payload + "." + Encode(s.mac(header + "." + payload))
    && Decode(payload).Some? && s.fromJson(Decode(payload).value) == Some(c)
    && now <= c.exp
  }

  ghost predicate Acceptable(s: Service, token: string, now: int, c: Claims) {
    exists header: string, payload: string :: AcceptableAs(s, token, now, c, header, payload)
  }

  lemma VerifiedIsAcceptable(s: Service, token: string, now: int, c: Claims)
    requires VerifyJWT(s, token, now) == Verified(c)
    ensures Acceptable(s, token, now, c)
  {
    var parts := Split(token, '.');
    SplitJoin(token, '.');
    var header, payload, sig := parts[0], parts[1], parts[2];
    assert header in parts && payload in parts;
    assert parts[1..] == [payload, sig] && parts[1..][1..] == [sig];
    assert Join([sig], '.') == sig;
    assert Join([payload, sig], '.') == payload + ['.'] + sig;
    assert Join(parts, '.') == header + ['.'] + (payload + ['.'] + sig);
    assert token == header + "." + payload + "." + sig;
    assert AcceptableAs(s, token, now, c, header, payload);
  }

  lemma AcceptableIsVerified(s: Service, now: int, c: Claims, header: string, payload: string)
    requires Free(header, '.') && Free(payload, '.')
    requires Decode(payload).Some? && s.fromJson(Decode(payload).value) == Some(c) && now <= c.exp
    ensures VerifyJWT(s, header + "." + payload + "." + Encode(s.mac(header + "." + payload)), now) == Verified(c)
  {
    Base64RoundTrip(s.mac(header + "." + payload));
    SplitToken(header, payload, Encode(s.mac(header + "." + payload)));
  }

  /**
   Verification, exactly: a token verifies to some claims if and only if it is a dot-free header and
   payload followed by the MAC of both, its payload decodes to those claims, and it has not expired.
   */
  lemma VerifiedIff(s: Service, token: string, now: int, c: Claims)
    ensures VerifyJWT(s, token, now) == Verified(c) <==> Acceptable(s, token, now, c)
  {
    if VerifyJWT(s, token, now) == Verified(c) {
      VerifiedIsAcceptable(s, token, now, c);
    }
    if header: string, payload: string :| AcceptableAs(s, token, now, c, header, payload) {
      AcceptableIsVerified(s, now, c, header, payload);
    }
  }
}
