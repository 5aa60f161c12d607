/** Identifiers on the wire and in the store: 1 to 64 ASCII letters, digits, and, after the
    first character, dots, underscores and hyphens. */
module Identifier {
  const MAX_ID_BYTES := 64

  predicate Alphanumeric(c: char) { 'A' <= c <= 'Z' || 'a' <= c <= 'z' || '0' <= c <= '9' }

  predicate Punctuation(c: char) { c == '.' || c == '_' || c == '-' }

  predicate ValidID(id: string) {
    && 1 <= |id| <= MAX_ID_BYTES
    && Alphanumeric(id[0])
    && (forall i | 0 <= i < |id| :: Alphanumeric(id[i]) || Punctuation(id[i]))
  }

  method CheckID(id: string) returns (valid: bool)
    ensures valid <==> ValidID(id)
  {
    if |id| == 0 || |id| > MAX_ID_BYTES {
      return false;
    }
    for index := 0 to |id|
      invariant index > 0 ==> Alphanumeric(id[0])
      invariant forall i | 0 <= i < index :: Alphanumeric(id[i]) || Punctuation(id[i])
    {
      var c := id[index];
      if Alphanumeric(c) {
        continue;
      }
      if index > 0 && Punctuation(c) {
        continue;
      }
      return false;
    }
    return true;
  }
}
