/** Parsing and printing public keys (src/keys.rs). Base64 decoding and SHA-256 are the
    parameter `digest`: the fingerprint of a blob, or `None` when it does not decode. */
module Keys {
  import opened Wrappers
  import opened Text
  import opened Identifiers

  type Digest = string -> Option<string>

  datatype PublicKey = PublicKey(keyType: string, blob: string, comment: Option<string>, fingerprint: string)

  predicate IsBlobChar(c: char) { IsBase64(c) || c == '=' }

  /** What is assumed of the digest: only non-empty base64 text decodes, and the result has
      the shape of a SHA-256 fingerprint. */
  ghost predicate GoodDigest(digest: Digest) {
    forall blob :: digest(blob).Some? ==>
      && blob != "" && (forall i :: 0 <= i < |blob| ==> IsBlobChar(blob[i]))
      && ValidFingerprint(digest(blob).value)
  }

  predicate IsAsciiWhitespace(c: char) { c == ' ' || c == '\t' || c == '\n' || c as int == 12 || c == '\r' }

  function Fingerprint(digest: Digest, blob: string): Option<string> {
    if blob == "" || exists i :: 0 <= i < |blob| && IsAsciiWhitespace(blob[i]) then None
    else digest(blob)
  }

  /** The part before the first white-space character, and the rest after it. */
  function SplitField(s: string): (string, Option<string>) {
    if s == "" then ("", None)
    else if IsWhitespace(s[0]) then ("", Some(s[1..]))
    else
      var (field, rest) := SplitField(s[1..]);
      ([s[0]] + field, rest)
  }

  /** `PublicKey::parse`: type, blob and optional comment. */
  function Parse(digest: Digest, line: string): Option<PublicKey> {
    var (keyType, afterType) := SplitField(Trim(line));
    if afterType.None? then None
    else
      var (blob, afterBlob) := SplitField(afterType.value);
      var comment := match afterBlob
        case None => None
        case Some(text) => if Trim(text) == "" then None else Some(Trim(text));
      var fingerprint := Fingerprint(digest, blob);
      if !ValidKeyType(keyType) || fingerprint.None? then None
      else Some(PublicKey(keyType, blob, comment, fingerprint.value))
  }

  const KEY_COMMENT := "ssh-exam-gate"

  /** The line printed for a registered key. */
  function AuthorizedKey(keyType: string, blob: string): string {
    keyType + " " + blob + " " + KEY_COMMENT
  }

  lemma {:induction false} FieldBeforeSpace(field: string, rest: string)
    requires forall i :: 0 <= i < |field| ==> !IsWhitespace(field[i])
    ensures SplitField(field + " " + rest) == (field, Some(rest))
  {
    if field == "" {
      assert field + " " + rest == " " + rest;
    } else {
      FieldBeforeSpace(field[1..], rest);
      assert (field + " " + rest)[1..] == field[1..] + " " + rest;
      assert [field[0]] + field[1..] == field;
    }
  }

  lemma AuthorizedKeyIsTrimmed(keyType: string, blob: string)
    requires ValidKeyType(keyType)
    ensures Trim(AuthorizedKey(keyType, blob)) == AuthorizedKey(keyType, blob)
    ensures AuthorizedKey(keyType, blob) == keyType + " " + (blob + " " + KEY_COMMENT)
    ensures forall i :: 0 <= i < |keyType| ==> !IsWhitespace(keyType[i])
    ensures Trim(KEY_COMMENT) == KEY_COMMENT
  {
    var line := AuthorizedKey(keyType, blob);
    assert line[0] == keyType[0];
    assert line[|line| - 1] == 'e';
    TrimOfTrimmed(line);
    assert KEY_COMMENT[0] == 's' && KEY_COMMENT[12] == 'e' && |KEY_COMMENT| == 13;
    TrimOfTrimmed(KEY_COMMENT);
  }

  lemma BlobFingerprint(digest: Digest, blob: string)
    requires GoodDigest(digest) && digest(blob).Some?
    ensures Fingerprint(digest, blob) == digest(blob)
    ensures forall i :: 0 <= i < |blob| ==> !IsWhitespace(blob[i])
  {
    assert forall i :: 0 <= i < |blob| ==> IsBlobChar(blob[i]);
  }

  /** An accepted key has a blob without white space, and the fingerprint of that blob. */
  lemma AcceptedBlobIsPlain(digest: Digest, line: string)
    requires Parse(digest, line).Some?
    ensures var key := Parse(digest, line).value;
      && ValidKeyType(key.keyType) && key.blob != "" && digest(key.blob) == Some(key.fingerprint)
      && forall i :: 0 <= i < |key.blob| ==> !IsAsciiWhitespace(key.blob[i])
  {}

  /** Parsing a printed key gives back its type, blob and fingerprint. */
  lemma ParseOfAuthorizedKey(digest: Digest, keyType: string, blob: string)
    requires GoodDigest(digest) && ValidKeyType(keyType) && digest(blob).Some?
    ensures Parse(digest, AuthorizedKey(keyType, blob))
            == Some(PublicKey(keyType, blob, Some(KEY_COMMENT), digest(blob).value))
  {
    AuthorizedKeyIsTrimmed(keyType, blob);
    BlobFingerprint(digest, blob);
    FieldBeforeSpace(keyType, blob + " " + KEY_COMMENT);
    FieldBeforeSpace(blob, KEY_COMMENT);
  }

  /** Whatever line is accepted, the stored fields print to a line that parses back to them:
      the comment and the spacing are the only things a registration forgets. */
  lemma RegisteredKeyRoundTrip(digest: Digest, line: string)
    requires GoodDigest(digest) && Parse(digest, line).Some?
    ensures var key := Parse(digest, line).value;
            Parse(digest, AuthorizedKey(key.keyType, key.blob)) == Some(key.(comment := Some(KEY_COMMENT)))
  {
    var key := Parse(digest, line).value;
    ParseOfAuthorizedKey(digest, key.keyType, key.blob);
  }
}
