/** Signed cookies and sessions (src/web.rs). HMAC-SHA256 and URL-safe base64 are parameters;
    bytes are characters. */
module Cookies {
  import opened Wrappers
  import opened Text

  datatype Signer = Signer(mac: string -> string, encode: string -> string, decode: string -> Option<string>)

  predicate IsBase64Url(c: char) { IsAlphanumeric(c) || c == '-' || c == '_' }

  /** What is assumed of the encoding: decoding undoes encoding, and an encoded tag is a
      non-empty URL-safe text. */
  ghost predicate GoodSigner(signer: Signer) {
    forall tag ::
      && signer.decode(signer.encode(tag)) == Some(tag)
      && signer.encode(tag) != ""
      && forall i :: 0 <= i < |signer.encode(tag)| ==> IsBase64Url(signer.encode(tag)[i])
  }

  const SESSION_COOKIE := "ssh_exam_session"
  const SESSION_DOMAIN := "session"
  const LOGIN_DOMAIN := "login"
  const CSRF_DOMAIN := "csrf"

  datatype Session = Session(nonce: string, expiresAt: nat)

  function MacInput(domain: string, value: string): string { domain + [0 as char] + value }

  function SignValue(signer: Signer, domain: string, value: string): string {
    value + "." + signer.encode(signer.mac(MacInput(domain, value)))
  }

  /** `str::split_once` and `str::rsplit_once`. */
  function SplitOnce(s: string, sep: char): Option<(string, string)> {
    if s == "" then None
    else if s[0] == sep then Some(("", s[1..]))
    else
      match SplitOnce(s[1..], sep)
      case None => None
      case Some((left, right)) => Some(([s[0]] + left, right))
  }

  function RSplitOnce(s: string, sep: char): Option<(string, string)> {
    if s == "" then None
    else if s[|s| - 1] == sep then Some((s[..|s| - 1], ""))
    else
      match RSplitOnce(s[..|s| - 1], sep)
      case None => None
      case Some((left, right)) => Some((left, right + [s[|s| - 1]]))
  }

  function VerifyValue(signer: Signer, domain: string, signed: string): Option<string> {
    match RSplitOnce(signed, '.')
    case None => None
    case Some((value, signature)) =>
      if signer.decode(signature) == Some(signer.mac(MacInput(domain, value))) then Some(value) else None
  }

  /** The first part of the header, trimmed, that starts with the name and an equals sign. */
  function FindCookie(parts: seq<string>, name: string): Option<string> {
    if parts == [] then None
    else
      match StripPrefix(Trim(parts[0]), name + "=")
      case Some(value) => Some(value)
      case None => FindCookie(parts[1..], name)
  }

  function Cookie(header: string, name: string): Option<string> { FindCookie(Split(header, ';'), name) }

  function EncodeSession(signer: Signer, session: Session): string {
    SignValue(signer, SESSION_DOMAIN, Decimal(session.expiresAt) + ":" + session.nonce)
  }

  function DecodePayload(payload: string, now: nat): Option<Session> {
    match SplitOnce(payload, ':')
    case None => None
    case Some((expires, nonce)) =>
      match ParseUnsigned(expires, U64_MAX)
      case None => None
      case Some(expiresAt) => if expiresAt < now || |nonce| < 16 then None else Some(Session(nonce, expiresAt))
  }

  function SessionFromHeader(signer: Signer, header: string, now: nat): Option<Session> {
    match Cookie(header, SESSION_COOKIE)
    case None => None
    case Some(signed) =>
      match VerifyValue(signer, SESSION_DOMAIN, signed)
      case None => None
      case Some(payload) => DecodePayload(payload, now)
  }

  // ---------- signing ----------

  lemma {:induction false} SplitOnceAt(a: string, b: string, sep: char)
    requires sep !in a
    ensures SplitOnce(a + [sep] + b, sep) == Some((a, b))
  {
    if a == "" {
      assert a + [sep] + b == [sep] + b;
    } else {
      SplitOnceAt(a[1..], b, sep);
      assert (a + [sep] + b)[1..] == a[1..] + [sep] + b;
      assert [a[0]] + a[1..] == a;
    }
  }

  lemma {:induction false} RSplitOnceAt(a: string, b: string, sep: char)
    requires sep !in b
    ensures RSplitOnce(a + [sep] + b, sep) == Some((a, b))
  {
    var s := a + [sep] + b;
    if b == "" {
      assert s[..|s| - 1] == a;
    } else {
      RSplitOnceAt(a, b[..|b| - 1], sep);
      assert s[..|s| - 1] == a + [sep] + b[..|b| - 1];
      assert b[..|b| - 1] + [b[|b| - 1]] == b;
    }
  }

  /** The MAC inputs of different domains, or of different values, never coincide. */
  lemma {:induction false} MacInputsAreDistinct(d: string, v: string, d': string, v': string)
    requires 0 as char !in d && 0 as char !in d'
    ensures MacInput(d, v) == MacInput(d', v') <==> d == d' && v == v'
  {
    SplitOnceAt(d, v, 0 as char);
    SplitOnceAt(d', v', 0 as char);
  }

  /** Unless their MACs collide, a value signed for one domain verifies in that domain, and in
      no other. */
  lemma DomainsDoNotMix(signer: Signer, domain: string, domain': string, value: string)
    requires GoodSigner(signer)
    requires signer.mac(MacInput(domain, value)) == signer.mac(MacInput(domain', value)) ==>
      MacInput(domain, value) == MacInput(domain', value)
    requires 0 as char !in domain && 0 as char !in domain'
    ensures VerifyValue(signer, domain', SignValue(signer, domain, value))
            == if domain == domain' then Some(value) else None
  {
    var tag := signer.mac(MacInput(domain, value));
    DotFree(signer, tag);
    RSplitOnceAt(value, signer.encode(tag), '.');
    MacInputsAreDistinct(domain, value, domain', value);
  }

  lemma DotFree(signer: Signer, tag: string)
    requires GoodSigner(signer)
    ensures '.' !in signer.encode(tag) && ';' !in signer.encode(tag)
  {
    forall i | 0 <= i < |signer.encode(tag)|
      ensures signer.encode(tag)[i] != '.' && signer.encode(tag)[i] != ';'
    {
      assert IsBase64Url(signer.encode(tag)[i]);
    }
  }

  lemma SignedValueVerifies(signer: Signer, domain: string, value: string)
    requires GoodSigner(signer)
    ensures VerifyValue(signer, domain, SignValue(signer, domain, value)) == Some(value)
  {
    var tag := signer.mac(MacInput(domain, value));
    DotFree(signer, tag);
    RSplitOnceAt(value, signer.encode(tag), '.');
  }

  // ---------- the cookie header ----------

  lemma {:induction false} CookieIsFound(parts: seq<string>, k: nat, name: string, value: string)
    requires k < |parts| && Trim(parts[k]) == name + "=" + value
    requires forall i :: 0 <= i < k ==> !(name + "=" <= Trim(parts[i]))
    ensures FindCookie(parts, name) == Some(value)
  {
    if k == 0 {
      assert (name + "=" + value)[|name + "="|..] == value;
    } else {
      CookieIsFound(parts[1..], k - 1, name, value);
    }
  }

  /** A session may be used until it expires, and with a nonce of at least 16 characters. */
  predicate Usable(session: Session, now: nat) { now <= session.expiresAt && |session.nonce| >= 16 }

  lemma PayloadRoundTrip(session: Session, now: nat)
    requires session.expiresAt <= U64_MAX
    ensures DecodePayload(Decimal(session.expiresAt) + ":" + session.nonce, now)
            == if Usable(session, now) then Some(session) else None
  {
    ParseOfDecimal(session.expiresAt, U64_MAX);
    var digits := Decimal(session.expiresAt);
    forall i | 0 <= i < |digits| ensures digits[i] != ':' {
      assert IsDigit(digits[i]);
    }
    SplitOnceAt(digits, session.nonce, ':');
    assert Decimal(session.expiresAt) + ":" + session.nonce == digits + [':'] + session.nonce;
  }

  lemma {:induction false} SplitOnceIs(s: string, sep: char, left: string, right: string)
    ensures SplitOnce(s, sep) == Some((left, right)) <==> sep !in left && s == left + [sep] + right
  {
    if sep !in left && s == left + [sep] + right {
      SplitOnceAt(left, right, sep);
    }
    if SplitOnce(s, sep) == Some((left, right)) {
      SplitOncePieces(s, sep);
    }
  }

  lemma {:induction false} SplitOncePieces(s: string, sep: char)
    ensures SplitOnce(s, sep).Some? ==>
      var (left, right) := SplitOnce(s, sep).value; sep !in left && s == left + [sep] + right
  {
    if s != "" && s[0] != sep {
      SplitOncePieces(s[1..], sep);
      assert s == [s[0]] + s[1..];
    }
  }

  /** A payload is a session exactly if it is a number that fits in 64 bits, a colon and the rest,
      the number is not past, and the rest, which is the nonce, has at least 16 characters. */
  lemma PayloadIsAcceptedWhen(payload: string, now: nat, session: Session)
    ensures DecodePayload(payload, now) == Some(session) <==>
      && now <= session.expiresAt && |session.nonce| >= 16
      && exists expires: string ::
           && ':' !in expires && payload == expires + ":" + session.nonce
           && ParseUnsigned(expires, U64_MAX) == Some(session.expiresAt)
  {
    if expires: string :|
      && ':' !in expires && payload == expires + ":" + session.nonce
      && ParseUnsigned(expires, U64_MAX) == Some(session.expiresAt)
    {
      SplitOnceIs(payload, ':', expires, session.nonce);
    }
    if DecodePayload(payload, now) == Some(session) {
      var (expires, nonce) := SplitOnce(payload, ':').value;
      SplitOnceIs(payload, ':', expires, nonce);
    }
  }

  ghost predicate IsNonce(nonce: string) { forall i :: 0 <= i < |nonce| ==> IsBase64Url(nonce[i]) }

  lemma SessionCookieIsTrimmed(signer: Signer, session: Session)
    requires GoodSigner(signer)
    ensures var pair := SESSION_COOKIE + "=" + EncodeSession(signer, session);
            Trim(pair) == pair
  {
    var pair := SESSION_COOKIE + "=" + EncodeSession(signer, session);
    var tag := signer.mac(MacInput(SESSION_DOMAIN, Decimal(session.expiresAt) + ":" + session.nonce));
    var text := signer.encode(tag);
    assert text != "" && IsBase64Url(text[|text| - 1]);
    assert pair[0] == 's' && pair[|pair| - 1] == text[|text| - 1];
    TrimOfTrimmed(pair);
  }

  /** A session that is encoded, sent among other cookies, found and verified is the same session
      exactly if it has not expired and its base64url nonce has at least 16 characters; otherwise
      there is none. `parts` are the parts of the header between semicolons; the part `k` holds
      the session cookie, with any white space around it. */
  lemma SessionRoundTrip(signer: Signer, session: Session, parts: seq<string>, k: nat, now: nat)
    requires GoodSigner(signer) && IsNonce(session.nonce) && session.expiresAt <= U64_MAX
    requires k < |parts| && forall i :: 0 <= i < |parts| ==> ';' !in parts[i]
    requires Trim(parts[k]) == SESSION_COOKIE + "=" + EncodeSession(signer, session)
    requires forall i :: 0 <= i < k ==> !(SESSION_COOKIE + "=" <= Trim(parts[i]))
    ensures SessionFromHeader(signer, Join(parts, ";"), now)
            == if now <= session.expiresAt && |session.nonce| >= 16 then Some(session) else None
  {
    SplitOfJoin(parts, ';');
    assert Split(Join(parts, ";"), ';') == parts;
    CookieIsFound(parts, k, SESSION_COOKIE, EncodeSession(signer, session));
    SignedValueVerifies(signer, SESSION_DOMAIN, Decimal(session.expiresAt) + ":" + session.nonce);
    PayloadRoundTrip(session, now);
  }

  /** The cookie that the program sets is such a part: it holds no semicolon and trims to
      itself, with or without a space before it. */
  lemma SessionCookieFits(signer: Signer, session: Session)
    requires GoodSigner(signer) && IsNonce(session.nonce)
    ensures var pair := SESSION_COOKIE + "=" + EncodeSession(signer, session);
      ';' !in pair && Trim(pair) == pair && Trim(" " + pair) == pair
  {
    var pair := SESSION_COOKIE + "=" + EncodeSession(signer, session);
    SessionCookieIsTrimmed(signer, session);
    NoSemicolon(signer, session);
    assert (" " + pair)[1..] == pair;
    assert TrimStart(" " + pair) == TrimStart(pair);
  }

  lemma NoSemicolon(signer: Signer, session: Session)
    requires GoodSigner(signer) && IsNonce(session.nonce)
    ensures ';' !in EncodeSession(signer, session)
  {
    var digits := Decimal(session.expiresAt);
    var tag := signer.mac(MacInput(SESSION_DOMAIN, digits + ":" + session.nonce));
    ParseOfDecimal(session.expiresAt, session.expiresAt);
    DotFree(signer, tag);
    forall i | 0 <= i < |digits| ensures digits[i] != ';' { assert IsDigit(digits[i]); }
    forall i | 0 <= i < |session.nonce| ensures session.nonce[i] != ';' { assert IsBase64Url(session.nonce[i]); }
    assert EncodeSession(signer, session) == digits + ":" + session.nonce + "." + signer.encode(tag);
  }
}
