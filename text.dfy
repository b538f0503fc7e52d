/** The two string operations the controller applies to what it sends and
    receives: Python's `str.strip()` (on every line read from the port) and
    `str.upper()` (on every queued command, before dispatch). */
module Text {

  /** A character that Python's `str.isspace()` accepts, i.e. what `strip()`
      removes: the ASCII controls TAB..CR, the separators FS..US, SPACE,
      NEL, NBSP and the Unicode space separators. */
  predicate IsSpace(c: char) {
    var n := c as int;
    (0x09 <= n <= 0x0D) || (0x1C <= n <= 0x20) || n == 0x85 || n == 0xA0 ||
    n == 0x1680 || (0x2000 <= n <= 0x200A) || n == 0x2028 || n == 0x2029 ||
    n == 0x202F || n == 0x205F || n == 0x3000
  }

  /** `s` with its leading whitespace removed. */
  function TrimStart(s: string): (r: string)
    ensures |r| <= |s|
  {
    if s != [] && IsSpace(s[0]) then TrimStart(s[1..]) else s
  }

  /** `s` with its trailing whitespace removed. */
  function TrimEnd(s: string): (r: string)
    ensures |r| <= |s|
  {
    if s != [] && IsSpace(s[|s| - 1]) then TrimEnd(s[..|s| - 1]) else s
  }

  /** `TrimStart` removes a run of whitespace and stops at the first other character. */
  lemma {:induction false} TrimStartSpec(s: string)
    ensures var r := TrimStart(s);
      && |r| <= |s| && r == s[|s| - |r|..]
      && (forall k :: 0 <= k < |s| - |r| ==> IsSpace(s[k]))
      && (r == [] || !IsSpace(r[0]))
  {
    if s != [] && IsSpace(s[0]) {
      TrimStartSpec(s[1..]);
    }
  }

  /** `TrimEnd` removes a run of whitespace and stops at the last other character. */
  lemma {:induction false} TrimEndSpec(s: string)
    ensures var r := TrimEnd(s);
      && |r| <= |s| && r == s[..|r|]
      && (forall k :: |r| <= k < |s| ==> IsSpace(s[k]))
      && (r == [] || !IsSpace(r[|r| - 1]))
  {
    if s != [] && IsSpace(s[|s| - 1]) {
      TrimEndSpec(s[..|s| - 1]);
    }
  }

  /** Python's `s.strip()`. */
  function Strip(s: string): string
  {
    TrimEnd(TrimStart(s))
  }

  /** `Strip(s)` is the slice of `s` left once all surrounding whitespace is
      cut away: it is empty exactly when `s` is all whitespace, and otherwise
      neither starts nor ends with whitespace. */
  lemma StripSpec(s: string)
    ensures var r := Strip(s);
      && (r == [] <==> forall k :: 0 <= k < |s| ==> IsSpace(s[k]))
      && (r != [] ==> !IsSpace(r[0]) && !IsSpace(r[|r| - 1]))
      && StripCut(s) + |r| <= |s| && r == s[StripCut(s)..StripCut(s) + |r|]
      && (forall k :: 0 <= k < StripCut(s) ==> IsSpace(s[k]))
      && (forall k :: StripCut(s) + |r| <= k < |s| ==> IsSpace(s[k]))
  {
    var t := TrimStart(s);
    var r := TrimEnd(t);
    TrimStartSpec(s);
    TrimEndSpec(t);
    assert forall k :: |r| <= k < |t| ==> IsSpace(t[k]);
  }

  /** How many leading characters `Strip` removes. */
  function StripCut(s: string): nat
  {
    |s| - |TrimStart(s)|
  }

  /** Python's `str.upper()` on one character, for every character whose
      capital is a single character that occurs in a controller command:
      the ASCII letters, LATIN SMALL LETTER LONG S (capital `S`) and LATIN
      SMALL LETTER DOTLESS I (capital `I`). Every other character is kept. */
  function UpperChar(c: char): char
  {
    if 'a' <= c <= 'z' then (c as int - 32) as char
    else if c == 'ſ' then 'S'
    else if c == 'ı' then 'I'
    else c
  }

  /** `s.upper()`, character by character. */
  function Upper(s: string): (r: string)
    ensures |r| == |s|
    ensures forall k :: 0 <= k < |s| ==> r[k] == UpperChar(s[k])
  {
    if s == [] then [] else [UpperChar(s[0])] + Upper(s[1..])
  }

  /** The characters `str.upper()` turns into a given capital. */
  lemma UpperCharInverse(c: char)
    ensures UpperChar(c) == 'S' <==> c == 'S' || c == 's' || c == 'ſ'
    ensures UpperChar(c) == 'I' <==> c == 'I' || c == 'i' || c == 'ı'
    ensures UpperChar(c) == 'P' <==> c == 'P' || c == 'p'
    ensures UpperChar(c) == 'B' <==> c == 'B' || c == 'b'
  {
  }
}
