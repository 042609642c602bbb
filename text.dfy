/** The string helpers the controllers rely on: JavaScript's `trim()` and truthiness of strings. */
module Text {

  /**
   * The white-space and line-terminator characters `String.prototype.trim`
   * removes (sections 12.2 and 12.3 of ECMA-262): tab, vertical tab, form
   * feed, the byte-order mark, every space separator of Unicode category Zs
   * (space, no-break space, ogham mark, U+2000 to U+200A, narrow no-break
   * space, medium mathematical space, ideographic space), line feed, carriage
   * return and the line/paragraph separators.
   */
  predicate IsSpace(c: char) {
    || c == '\t' || c == '\U{B}' || c == '\U{C}' || c == '\U{FEFF}'
    || c == ' ' || c == '\U{A0}' || c == '\U{1680}' || ('\U{2000}' <= c <= '\U{200A}')
    || c == '\U{202F}' || c == '\U{205F}' || c == '\U{3000}'
    || c == '\n' || c == '\r' || c == '\U{2028}' || c == '\U{2029}'
  }

  /** The space separators outside ASCII that `trim()` removes as well. */
  lemma WideSpaces()
    ensures IsSpace('\U{3000}') && IsSpace('\U{2003}') && IsSpace('\U{1680}') && IsSpace('\U{205F}')
    ensures !IsSpace('a') && !IsSpace('\U{200B}') && !IsSpace('\U{85}')
  {
  }

  predicate AllSpace(s: string) {
    forall i :: 0 <= i < |s| ==> IsSpace(s[i])
  }

  function TrimStart(s: string): (r: string)
    ensures |r| <= |s| && r == s[|s| - |r|..]
    ensures r == "" || !IsSpace(r[0])
    ensures AllSpace(s[..|s| - |r|])
  {
    if s != [] && IsSpace(s[0]) then TrimStart(s[1..]) else s
  }

  function TrimEnd(s: string): (r: string)
    ensures |r| <= |s| && r == s[..|r|]
    ensures r == "" || !IsSpace(r[|r| - 1])
    ensures AllSpace(s[|r|..])
  {
    if s != [] && IsSpace(s[|s| - 1]) then TrimEnd(s[..|s| - 1]) else s
  }

  /** `s.trim()`: the longest middle part without leading or trailing white space. */
  function Trim(s: string): (r: string)
  {
    TrimEnd(TrimStart(s))
  }

  /** Trimming leaves a contiguous slice of the input that starts and ends with non-space. */
  lemma TrimIsSlice(s: string)
    ensures exists i, j :: 0 <= i <= j <= |s| && Trim(s) == s[i..j]
              && AllSpace(s[..i]) && AllSpace(s[j..])
    ensures Trim(s) == "" || (!IsSpace(Trim(s)[0]) && !IsSpace(Trim(s)[|Trim(s)| - 1]))
  {
    var a := TrimStart(s);
    var i := |s| - |a|;
    var b := TrimEnd(a);
    assert b == s[i..i + |b|];
    assert s[i + |b|..] == a[|b|..];
    if b != "" {
      assert b[0] == a[0];
    }
  }

  /** A string trims to "" exactly when every character is white space. */
  lemma TrimEmptyIffAllSpace(s: string)
    ensures Trim(s) == "" <==> AllSpace(s)
  {
    if Trim(s) == "" {
      assert s[..|s|] == s;
    }
  }

  /** No white space at either end: what a schema with `trim: true` stores. */
  predicate Trimmed(s: string) {
    s == "" || (!IsSpace(s[0]) && !IsSpace(s[|s| - 1]))
  }

  /** A string is trimmed exactly when `trim()` leaves it as it is; `trim()` always yields one. */
  lemma TrimmedIffFixed(s: string)
    ensures Trimmed(s) <==> Trim(s) == s
    ensures Trimmed(Trim(s))
  {
    assert Trimmed(Trim(s)) by {
      TrimIsSlice(s);
    }
    if Trimmed(s) {
      assert TrimStart(s) == s;
      assert TrimEnd(s) == s;
    }
  }

  /** Trimming is idempotent. */
  lemma TrimIdempotent(s: string)
    ensures Trim(Trim(s)) == Trim(s)
  {
    TrimIsSlice(s);
    var t := Trim(s);
    if t != "" {
      assert TrimStart(t) == t;
      assert TrimEnd(t) == t;
    }
  }
}
