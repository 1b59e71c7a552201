/** JavaScript strings as the component sees them: sequences of UTF-16 code
    units, so that `length` is the number of code units and `trim` removes
    the white space and line terminators of the ECMAScript language
    specification (sections 12.2 and 12.3 of ECMA-262) from both ends. */
module JsText {

  /** One UTF-16 code unit. */
  newtype CodeUnit = x: int | 0 <= x < 0x1_0000

  /** A JavaScript string value. */
  type JsString = seq<CodeUnit>

  /** ECMAScript WhiteSpace (TAB, VT, FF, ZWNBSP and every Unicode "Zs"
      character) and LineTerminator (LF, CR, LS, PS). All of them lie in the
      Basic Multilingual Plane, so each is a single code unit. */
  predicate IsWhiteSpace(c: CodeUnit)
  {
    || c == 0x09 || c == 0x0A || c == 0x0B || c == 0x0C || c == 0x0D
    || c == 0x20 || c == 0xA0 || c == 0x1680
    || (0x2000 <= c <= 0x200A)
    || c == 0x2028 || c == 0x2029 || c == 0x202F || c == 0x205F
    || c == 0x3000 || c == 0xFEFF
  }

  /** Every code unit of `s` is white space (vacuously true of ""). */
  predicate AllWhiteSpace(s: JsString)
  {
    forall i :: 0 <= i < |s| ==> IsWhiteSpace(s[i])
  }

  /** `s` with its leading white space removed. */
  function TrimStart(s: JsString): (r: JsString)
    ensures |r| <= |s| && r == s[|s| - |r|..]
    ensures forall i :: 0 <= i < |s| - |r| ==> IsWhiteSpace(s[i])
    ensures |r| > 0 ==> !IsWhiteSpace(r[0])
  {
    if |s| > 0 && IsWhiteSpace(s[0]) then TrimStart(s[1..]) else s
  }

  /** `s` with its trailing white space removed. */
  function TrimEnd(s: JsString): (r: JsString)
    ensures |r| <= |s| && r == s[..|r|]
    ensures forall i :: |r| <= i < |s| ==> IsWhiteSpace(s[i])
    ensures |r| > 0 ==> !IsWhiteSpace(r[|r| - 1])
  {
    if |s| > 0 && IsWhiteSpace(s[|s| - 1]) then TrimEnd(s[..|s| - 1]) else s
  }

  /** `String.prototype.trim`: both ends stripped. The result is empty exactly
      when the whole string is white space, and otherwise neither of its ends
      is white space. */
  function Trim(s: JsString): (r: JsString)
    ensures |r| <= |s|
    ensures |r| == 0 <==> AllWhiteSpace(s)
    ensures |r| > 0 ==> !IsWhiteSpace(r[0]) && !IsWhiteSpace(r[|r| - 1])
  {
    TrimEnds(s);
    TrimEnd(TrimStart(s))
  }

  /** The two halves of `Trim` meet: a non-blank remainder after the leading
      white space keeps its first code unit through `TrimEnd`. */
  lemma TrimEnds(s: JsString)
    ensures |TrimEnd(TrimStart(s))| == 0 <==> AllWhiteSpace(s)
    ensures var r := TrimEnd(TrimStart(s)); |r| > 0 ==> !IsWhiteSpace(r[0])
  {
    var t := TrimStart(s);
    var r := TrimEnd(t);
    if |t| > 0 {
      assert s[|s| - |t|] == t[0];
      assert |r| > 0;
      assert r[0] == t[0];
    }
  }

  /** Trimming a trimmed string changes nothing. */
  lemma TrimIdempotent(s: JsString)
    ensures Trim(Trim(s)) == Trim(s)
  {
    var t := Trim(s);
    if |t| > 0 {
      assert TrimStart(t) == t;
      assert TrimEnd(t) == t;
    }
  }
}
