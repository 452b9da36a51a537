/** The guards that the DOCX and the audio seal share. */
module SealGuards {
  predicate IsHexDigit(c: char) { '0' <= c <= '9' || 'a' <= c <= 'f' }

  predicate IsIdChar(c: char) {
    'a' <= c <= 'z' || 'A' <= c <= 'Z' || '0' <= c <= '9' || c == '.' || c == '_' || c == ':' || c == '-'
  }

  predicate SafeId(id: string) {
    8 <= |id| <= 160 && forall i :: 0 <= i < |id| ==> IsIdChar(id[i])
  }
}
