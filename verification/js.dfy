/**
 JavaScript value and string semantics that the route handlers and pages rely on:
 the `undefined`/`null`/value distinction of a JSON body field, truthiness,
 `x || ""`, template-literal interpolation, `String.prototype.trim`,
 `toLowerCase` and `includes`.
 */
module Js {

  /** A field read from a JSON body, a form or an API response. */
  datatype JsValue<+T> = Undefined | Null | Defined(value: T)

  /** JavaScript truthiness of a string-valued field: defined and non-empty. */
  predicate Truthy(x: JsValue<string>) {
    x.Defined? && x.value != ""
  }

  /** `x || ""` for a string-valued field. */
  function OrEmpty(x: JsValue<string>): string {
    if Truthy(x) then x.value else ""
  }

  /** `x ?? ""`: only `undefined` and `null` are replaced. */
  function OrEmptyIfNullish(x: JsValue<string>): string {
    if x.Defined? then x.value else ""
  }

  /** `${x}` inside a template literal. */
  function Interpolate(x: JsValue<string>): string {
    match x
    case Undefined => "undefined"
    case Null => "null"
    case Defined(s) => s
  }

  /** The characters of the `\s` class of a JavaScript regular expression; they are
      also the characters `String.prototype.trim` removes. */
  predicate IsWhitespace(c: char) {
    || c == ' ' || c == '\t' || c == '\n' || c == '\r'
    || c == '\U{000B}' || c == '\U{000C}' || c == '\U{00A0}' || c == '\U{1680}'
    || ('\U{2000}' <= c <= '\U{200A}')
    || c == '\U{2028}' || c == '\U{2029}' || c == '\U{202F}' || c == '\U{205F}'
    || c == '\U{3000}' || c == '\U{FEFF}'
  }

  /** True iff every character of `s` is whitespace (the empty string included). */
  predicate IsBlank(s: string) {
    forall i :: 0 <= i < |s| ==> IsWhitespace(s[i])
  }

  /** Removes leading whitespace. */
  function TrimStart(s: string): (r: string)
    ensures |r| <= |s| && r == s[|s| - |r|..]
    ensures r == [] || !IsWhitespace(r[0])
    ensures IsBlank(s[..|s| - |r|])
    decreases |s|
  {
    if s != [] && IsWhitespace(s[0]) then
      var r := TrimStart(s[1..]);
      assert s[1..][|s| - 1 - |r|..] == s[|s| - |r|..];
      assert s[..|s| - |r|] == [s[0]] + s[1..][..|s| - 1 - |r|];
      r
    else s
  }

  /** Removes trailing whitespace. */
  function TrimEnd(s: string): (r: string)
    ensures |r| <= |s| && r == s[..|r|]
    ensures r == [] || !IsWhitespace(r[|r| - 1])
    ensures IsBlank(s[|r|..])
    decreases |s|
  {
    if s != [] && IsWhitespace(s[|s| - 1]) then
      var r := TrimEnd(s[..|s| - 1]);
      assert s[..|s| - 1][..|r|] == s[..|r|];
      assert s[|r|..] == s[..|s| - 1][|r|..] + [s[|s| - 1]];
      r
    else s
  }

  /** `s.trim()`. */
  function Trim(s: string): (r: string)
    ensures r == [] || (!IsWhitespace(r[0]) && !IsWhitespace(r[|r| - 1]))
    ensures exists i, j :: 0 <= i <= j <= |s| && r == s[i..j] && IsBlank(s[..i]) && IsBlank(s[j..])
  {
    var t := TrimStart(s);
    var r := TrimEnd(t);
    TrimmedSlice(s, t, r);
    r
  }

  /** The end-trimmed tail of `s` is a slice of `s` between two blank ends. */
  lemma TrimmedSlice(s: string, t: string, r: string)
    requires |t| <= |s| && t == s[|s| - |t|..] && IsBlank(s[..|s| - |t|])
    requires |r| <= |t| && r == t[..|r|] && IsBlank(t[|r|..])
    ensures exists i, j :: 0 <= i <= j <= |s| && r == s[i..j] && IsBlank(s[..i]) && IsBlank(s[j..])
  {
    var i := |s| - |t|;
    assert s[i..][..|r|] == s[i..i + |r|];
    assert s[i + |r|..] == t[|r|..];
    assert r == s[i..i + |r|] && IsBlank(s[..i]) && IsBlank(s[i + |r|..]);
  }

  /** `s.trim()` is empty exactly when `s` consists of whitespace only. */
  lemma TrimEmptyIffBlank(s: string)
    ensures Trim(s) == [] <==> IsBlank(s)
  {
    var t := TrimStart(s);
    if IsBlank(s) {
      assert t == [];
    }
    if Trim(s) == [] {
      assert t[0..] == t;
      assert s[..|s|] == s;
    }
  }

  /** `toLowerCase` on one character (ASCII letters only). */
  function LowerChar(c: char): char {
    if 'A' <= c <= 'Z' then (c as int + 32) as char else c
  }

  /** `s.toLowerCase()`, character by character. */
  function Lower(s: string): (r: string)
    ensures |r| == |s|
    ensures forall i :: 0 <= i < |s| ==> r[i] == LowerChar(s[i])
  {
    seq(|s|, i requires 0 <= i < |s| => LowerChar(s[i]))
  }

  /** Lower-casing twice is lower-casing once. */
  lemma LowerIdempotent(s: string)
    ensures Lower(Lower(s)) == Lower(s)
  {
  }

  /** Lower-casing distributes over concatenation. */
  lemma LowerConcat(a: string, b: string)
    ensures Lower(a + b) == Lower(a) + Lower(b)
  {
    assert forall i :: 0 <= i < |a + b| ==> Lower(a + b)[i] == (Lower(a) + Lower(b))[i];
  }

  /** `t` occurs in `s` starting at index `i`. */
  predicate OccursAt(s: string, t: string, i: int) {
    0 <= i && i + |t| <= |s| && s[i..i + |t|] == t
  }

  /** `s.includes(t)`. */
  function Includes(s: string, t: string): (b: bool)
    ensures b <==> exists i :: OccursAt(s, t, i)
    decreases |s|
  {
    if |t| > |s| then false
    else if s[..|t|] == t then (assert OccursAt(s, t, 0); true)
    else
      var b := Includes(s[1..], t);
      ShiftOccurrence(s, t);
      assert forall i :: OccursAt(s, t, i) ==> i > 0 && OccursAt(s[1..], t, i - 1);
      b
  }

  /** Occurrences in `s[1..]` are the occurrences in `s` past index 0, shifted by one. */
  lemma ShiftOccurrence(s: string, t: string)
    requires s != []
    ensures forall i :: 0 <= i ==> (OccursAt(s[1..], t, i) <==> OccursAt(s, t, i + 1))
  {
    forall i | 0 <= i
      ensures OccursAt(s[1..], t, i) <==> OccursAt(s, t, i + 1)
    {
      if 0 <= i && i + |t| <= |s| - 1 {
        assert s[1..][i..i + |t|] == s[i + 1..i + 1 + |t|];
      }
    }
  }

  /** Every string includes the empty string. */
  lemma IncludesEmpty(s: string)
    ensures Includes(s, "")
  {
    assert OccursAt(s, "", 0);
  }

  /** The empty string includes only the empty string. */
  lemma EmptyIncludesOnlyEmpty(t: string)
    ensures Includes("", t) <==> t == ""
  {
    if t == "" {
      IncludesEmpty("");
    }
  }

  /** An occurrence inside a piece of a concatenation is an occurrence in the whole. */
  lemma IncludesInMiddle(a: string, t: string, b: string)
    ensures Includes(a + t + b, t)
  {
    assert (a + t + b)[|a|..|a| + |t|] == t;
    assert OccursAt(a + t + b, t, |a|);
  }
}
