/** Syntax of the identifiers that the tables and the policy accept. */
module Identifiers {
  import opened Text

  const LEGACY_BANK_ID := "legacy"

  /** Bank and test ids: 1-64 lowercase letters or digits with single internal hyphens. */
  predicate ValidBankId(id: string) {
    && 1 <= |id| <= 64
    && IsLowerOrDigit(id[0]) && IsLowerOrDigit(id[|id| - 1])
    && (forall i :: 0 <= i < |id| ==> IsLowerOrDigit(id[i]) || id[i] == '-')
    && (forall i :: 0 <= i < |id| - 1 ==> !(id[i] == '-' && id[i + 1] == '-'))
  }

  predicate IsHexDigit(c: char) { IsDigit(c) || 'a' <= c <= 'f' || 'A' <= c <= 'F' }

  predicate ValidRevision(revision: string) {
    |revision| == 64 && forall i :: 0 <= i < |revision| ==> IsHexDigit(revision[i])
  }

  /** What `validate_display_name` accepts, before it trims. */
  predicate ValidDisplayName(name: string) {
    && Trim(name) != "" && |Trim(name)| <= 200
    && forall c :: c in Trim(name) ==> !IsControl(c)
  }

  predicate ValidUsername(name: string) {
    && 1 <= |name| <= 32
    && ('a' <= name[0] <= 'z' || name[0] == '_')
    && forall i :: 1 <= i < |name| ==> IsLowerOrDigit(name[i]) || name[i] == '_' || name[i] == '-'
  }

  predicate IsBase64(c: char) { IsAlphanumeric(c) || c == '+' || c == '/' }

  const FINGERPRINT_PREFIX := "SHA256:"

  /** "SHA256:" and 32 bytes in unpadded base64: 43 characters, the last of which carries
      four significant bits. */
  predicate ValidFingerprint(value: string) {
    && FINGERPRINT_PREFIX <= value
    && |value| == 7 + 43
    && (forall i :: 7 <= i < |value| ==> IsBase64(value[i]))
    && value[|value| - 1] in "AEIMQUYcgkosw048"
  }

  predicate ValidKeyType(value: string) {
    && 1 <= |value| <= 128
    && forall i :: 0 <= i < |value| ==> IsAlphanumeric(value[i]) || value[i] in "-@._"
  }
}
