/** `String.prototype.trim` and the emptiness test the add handler applies to the typed title. */
module Strings {

  /**
   * The code points ECMAScript strips in trim: WhiteSpace (tab, vertical tab, form feed,
   * space, no-break space, byte order mark and the Zs category) and LineTerminator
   * (line feed, carriage return, line and paragraph separators).
   */
  predicate IsWhitespace(c: char) {
    || c == '\t' || c == '\U{000B}' || c == '\U{000C}' || c == ' ' || c == '\U{00A0}' || c == '\U{FEFF}'
    || c == '\U{1680}' || ('\U{2000}' <= c <= '\U{200A}') || c == '\U{202F}' || c == '\U{205F}' || c == '\U{3000}'
    || c == '\n' || c == '\r' || c == '\U{2028}' || c == '\U{2029}'
  }

  /** Every character of s is whitespace (the empty string included). */
  predicate IsBlank(s: string) {
    forall i :: 0 <= i < |s| ==> IsWhitespace(s[i])
  }

  /** Drops the leading whitespace. */
  function TrimStart(s: string): (r: string)
    ensures |r| <= |s| && r == s[|s| - |r|..]
    ensures forall i :: 0 <= i < |s| - |r| ==> IsWhitespace(s[i])
    ensures r != [] ==> !IsWhitespace(r[0])
  {
    if s != [] && IsWhitespace(s[0]) then
      var r := TrimStart(s[1..]);
      assert forall i :: 1 <= i < |s| - |r| ==> s[i] == s[1..][i - 1];
      assert s[|s| - |r|..] == s[1..][|s[1..]| - |r|..];
      r
    else
      s
  }

  /** Drops the trailing whitespace. */
  function TrimEnd(s: string): (r: string)
    ensures |r| <= |s| && r == s[..|r|]
    ensures forall i :: |r| <= i < |s| ==> IsWhitespace(s[i])
    ensures r != [] ==> !IsWhitespace(r[|r| - 1])
  {
    if s != [] && IsWhitespace(s[|s| - 1]) then
      var r := TrimEnd(s[..|s| - 1]);
      assert forall i :: |r| <= i < |s| - 1 ==> s[i] == s[..|s| - 1][i];
      assert s[..|r|] == s[..|s| - 1][..|r|];
      r
    else
      s
  }

  function Trim(s: string): string {
    TrimEnd(TrimStart(s))
  }

  /** `s.trim() === ''` holds exactly when s is empty or whitespace only. */
  lemma TrimEmptyIff(s: string)
    ensures Trim(s) == [] <==> IsBlank(s)
  {
    var u := TrimStart(s);
    if Trim(s) == [] {
      assert IsBlank(u) by { assert u[0..] == u; }
      assert u == [];
      assert s[..|s|] == s;
    }
  }
}
