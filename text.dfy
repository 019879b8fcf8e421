// Blank-input detection used by the to-do list's submit and save-edit handlers.
// The handlers test the truthiness of `s.trim()`: the trimmed string is truthy
// exactly when it is non-empty. This module models `trim` as the removal of
// leading and trailing white space and relates it to `NonBlank`.

module Text {

  /** The characters JavaScript's `trim` strips: the ECMAScript WhiteSpace and
      LineTerminator code points. */
  predicate IsWs(c: char) {
    var n := c as int;
    n == 0x09 || n == 0x0A || n == 0x0B || n == 0x0C || n == 0x0D ||
    n == 0x20 || n == 0xA0 || n == 0x1680 || (0x2000 <= n <= 0x200A) ||
    n == 0x2028 || n == 0x2029 || n == 0x202F || n == 0x205F ||
    n == 0x3000 || n == 0xFEFF
  }

  /** Some character of `s` is not white space. */
  predicate NonBlank(s: string) {
    exists i :: 0 <= i < |s| && !IsWs(s[i])
  }

  /** `s` without its leading white space. */
  function TrimStart(s: string): (r: string)
    ensures |r| <= |s| && r == s[|s| - |r|..]
    ensures r == [] || !IsWs(r[0])
    ensures forall i :: 0 <= i < |s| - |r| ==> IsWs(s[i])
  {
    if |s| > 0 && IsWs(s[0]) then TrimStart(s[1..]) else s
  }

  /** `s` without its trailing white space. */
  function TrimEnd(s: string): (r: string)
    ensures |r| <= |s| && r == s[..|r|]
    ensures r == [] || !IsWs(r[|r| - 1])
    ensures forall i :: |r| <= i < |s| ==> IsWs(s[i])
  {
    if |s| > 0 && IsWs(s[|s| - 1]) then TrimEnd(s[..|s| - 1]) else s
  }

  /** JavaScript's `String.prototype.trim`: neither starts nor ends with white space. */
  function Trim(s: string): (r: string)
    ensures |r| <= |s|
    ensures r == [] || (!IsWs(r[0]) && !IsWs(r[|r| - 1]))
  {
    TrimEnd(TrimStart(s))
  }

  /** `trim` returns a slice of its input, and everything cut off around the
      slice is white space. */
  lemma TrimIsSlice(s: string)
    ensures exists k :: 0 <= k <= |s| - |Trim(s)| && Trim(s) == s[k..][..|Trim(s)|] &&
              (forall i :: 0 <= i < k ==> IsWs(s[i])) &&
              (forall i :: k + |Trim(s)| <= i < |s| ==> IsWs(s[i]))
  {
    var t := TrimStart(s);
    var r := TrimEnd(t);
    var k := |s| - |t|;
    assert t == s[k..];
    assert forall i :: k + |r| <= i < |s| ==> IsWs(t[i - k]) && s[i] == t[i - k];
  }

  /** The truthiness test of the handlers: `s.trim()` is empty exactly when
      every character of `s` is white space. */
  lemma TrimEmptyIff(s: string)
    ensures Trim(s) == [] <==> !NonBlank(s)
  {
  }
}
