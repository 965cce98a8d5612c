/**
 * Whitespace trimming. The backend strips every incoming and outgoing string
 * field (Pydantic's `str_strip_whitespace`, which trims the Unicode White_Space
 * characters); the mobile form trims with ECMAScript's `String.prototype.trim`.
 * The two character sets differ slightly, so each is written out.
 */
module Text {

  datatype WhiteSpace = UnicodeWhiteSpace | EcmaScriptWhiteSpace

  predicate IsSpace(c: char, ws: WhiteSpace) {
    match ws
    case UnicodeWhiteSpace =>
      ('\t' <= c <= '\r') || c == ' ' || c == '\U{85}' || c == '\U{A0}' || c == '\U{1680}'
      || ('\U{2000}' <= c <= '\U{200A}') || c == '\U{2028}' || c == '\U{2029}'
      || c == '\U{202F}' || c == '\U{205F}' || c == '\U{3000}'
    case EcmaScriptWhiteSpace =>
      ('\t' <= c <= '\r') || c == ' ' || c == '\U{A0}' || c == '\U{1680}'
      || ('\U{2000}' <= c <= '\U{200A}') || c == '\U{2028}' || c == '\U{2029}'
      || c == '\U{202F}' || c == '\U{205F}' || c == '\U{3000}' || c == '\U{FEFF}'
  }

  /** A string with no white space at either end. */
  predicate IsTrimmed(s: string, ws: WhiteSpace) {
    s == [] || (!IsSpace(s[0], ws) && !IsSpace(s[|s| - 1], ws))
  }

  predicate AllSpace(s: string, ws: WhiteSpace) {
    forall i :: 0 <= i < |s| ==> IsSpace(s[i], ws)
  }

  /** Drops the leading white space. */
  function TrimStart(s: string, ws: WhiteSpace): string
    decreases |s|
  {
    if |s| > 0 && IsSpace(s[0], ws) then TrimStart(s[1..], ws) else s
  }

  /** Drops the trailing white space. */
  function TrimEnd(s: string, ws: WhiteSpace): string
    decreases |s|
  {
    if |s| > 0 && IsSpace(s[|s| - 1], ws) then TrimEnd(s[..|s| - 1], ws) else s
  }

  /** What `TrimStart` leaves is a suffix of `s` that starts with a non-space, and only white space went. */
  lemma {:induction false} TrimStartSpec(s: string, ws: WhiteSpace)
    ensures |TrimStart(s, ws)| <= |s|
    ensures TrimStart(s, ws) == s[|s| - |TrimStart(s, ws)|..]
    ensures TrimStart(s, ws) == [] || !IsSpace(TrimStart(s, ws)[0], ws)
    ensures AllSpace(s[..|s| - |TrimStart(s, ws)|], ws)
    decreases |s|
  {
    if |s| > 0 && IsSpace(s[0], ws) {
      TrimStartSpec(s[1..], ws);
      var n := |s| - |TrimStart(s, ws)|;
      assert s[1..][|s| - 1 - |TrimStart(s, ws)|..] == s[n..];
      forall i | 0 <= i < n ensures IsSpace(s[i], ws) {
        if i > 0 {
          assert s[i] == s[1..][..n - 1][i - 1];
        }
      }
    }
  }

  /** What `TrimEnd` leaves is a prefix of `s` that ends with a non-space, and only white space went. */
  lemma {:induction false} TrimEndSpec(s: string, ws: WhiteSpace)
    ensures |TrimEnd(s, ws)| <= |s|
    ensures TrimEnd(s, ws) == s[..|TrimEnd(s, ws)|]
    ensures TrimEnd(s, ws) == [] || !IsSpace(TrimEnd(s, ws)[|TrimEnd(s, ws)| - 1], ws)
    ensures AllSpace(s[|TrimEnd(s, ws)|..], ws)
    decreases |s|
  {
    if |s| > 0 && IsSpace(s[|s| - 1], ws) {
      var t := s[..|s| - 1];
      TrimEndSpec(t, ws);
      var m := |TrimEnd(s, ws)|;
      assert t[..m] == s[..m];
      forall i | m <= i < |s| ensures IsSpace(s[i], ws) {
        if i < |s| - 1 {
          assert s[i] == t[m..][i - m];
        }
      }
    }
  }

  function Trim(s: string, ws: WhiteSpace): string {
    TrimEnd(TrimStart(s, ws), ws)
  }

  /** Trimming leaves no white space at either end. */
  lemma TrimIsTrimmed(s: string, ws: WhiteSpace)
    ensures IsTrimmed(Trim(s, ws), ws)
  {
    var t := TrimStart(s, ws);
    var r := TrimEnd(t, ws);
    TrimStartSpec(s, ws);
    TrimEndSpec(t, ws);
    if r != [] {
      assert r[0] == t[0];
    }
  }

  /** A string that is already trimmed is returned unchanged. */
  lemma TrimmedIsFixpoint(s: string, ws: WhiteSpace)
    requires IsTrimmed(s, ws)
    ensures Trim(s, ws) == s
  {
    assert TrimStart(s, ws) == s;
  }

  /** Stripping twice is the same as stripping once. */
  lemma TrimIdempotent(s: string, ws: WhiteSpace)
    ensures Trim(Trim(s, ws), ws) == Trim(s, ws)
  {
    TrimIsTrimmed(s, ws);
    TrimmedIsFixpoint(Trim(s, ws), ws);
  }

  /** A string trims to the empty string exactly when it is all white space. */
  lemma TrimEmptyIffAllSpace(s: string, ws: WhiteSpace)
    ensures Trim(s, ws) == [] <==> AllSpace(s, ws)
  {
    var t := TrimStart(s, ws);
    TrimStartSpec(s, ws);
    TrimEndSpec(t, ws);
    if Trim(s, ws) == [] {
      assert t == [];
      assert s[..|s|] == s;
    } else {
      assert t != [];
      assert t[0] == s[|s| - |t|];
      assert !IsSpace(s[|s| - |t|], ws);
    }
  }
}
