/** The JavaScript built-ins the search handler relies on, stated over
    Dafny strings (`seq<char>`) and unbounded integers. */
module Js {
  import opened Wrappers

  /** The characters matched by `\s` in a regular expression, which are
      also what `String.prototype.trim` removes: ECMAScript's WhiteSpace and
      LineTerminator code points. */
  const Whitespace: set<char> := {
    '\t', '\n', '\U{B}', '\U{C}', '\r', ' ', '\U{A0}', '\U{1680}',
    '\U{2000}', '\U{2001}', '\U{2002}', '\U{2003}', '\U{2004}', '\U{2005}',
    '\U{2006}', '\U{2007}', '\U{2008}', '\U{2009}', '\U{200A}',
    '\U{2028}', '\U{2029}', '\U{202F}', '\U{205F}', '\U{3000}', '\U{FEFF}'
  }

  predicate IsSpace(c: char) {
    c in Whitespace
  }

  /** A character matched by `\w`: an ASCII letter, digit or underscore. */
  predicate IsWordChar(c: char) {
    'a' <= c <= 'z' || 'A' <= c <= 'Z' || '0' <= c <= '9' || c == '_'
  }

  predicate IsUpper(c: char) {
    'A' <= c <= 'Z'
  }

  predicate AllSpace(s: string) {
    forall i | 0 <= i < |s| :: IsSpace(s[i])
  }

  /** `toLowerCase` on one character, for the ASCII range. */
  function ToLower(c: char): (r: char)
    ensures !IsUpper(r)
    ensures IsWordChar(r) <==> IsWordChar(c)
    ensures IsSpace(r) <==> IsSpace(c)
    ensures !IsUpper(c) ==> r == c
    ensures IsUpper(c) ==> 'a' <= r <= 'z' && r as int - 'a' as int == c as int - 'A' as int
  {
    if IsUpper(c) then (c as int + 32) as char else c
  }

  /** `String.prototype.toLowerCase`, for the ASCII range. */
  function LowerCase(s: string): (r: string)
    ensures |r| == |s|
    ensures forall i | 0 <= i < |r| :: !IsUpper(r[i]) && (IsUpper(s[i]) || r[i] == s[i])
    ensures forall i | 0 <= i < |r| && IsUpper(s[i]) ::
      'a' <= r[i] <= 'z' && r[i] as int - 'a' as int == s[i] as int - 'A' as int
  {
    seq(|s|, i requires 0 <= i < |s| => ToLower(s[i]))
  }

  /** `s` without its leading white space. */
  function TrimStart(s: string): (r: string)
    ensures |r| <= |s| && r == s[|s| - |r|..]
    ensures AllSpace(s[..|s| - |r|])
    ensures r != [] ==> !IsSpace(r[0])
  {
    if s != [] && IsSpace(s[0]) then TrimStart(s[1..]) else s
  }

  /** `s` without its trailing white space. */
  function TrimEnd(s: string): (r: string)
    ensures |r| <= |s| && r == s[..|r|]
    ensures AllSpace(s[|r|..])
    ensures r != [] ==> !IsSpace(r[|r| - 1])
  {
    if s != [] && IsSpace(s[|s| - 1]) then TrimEnd(s[..|s| - 1]) else s
  }

  /** `String.prototype.trim`: `s` without its leading and trailing white
      space. */
  function Trim(s: string): (r: string)
    ensures r == [] <==> AllSpace(s)
    ensures r != [] ==> !IsSpace(r[0]) && !IsSpace(r[|r| - 1])
  {
    var t := TrimStart(s);
    var r := TrimEnd(t);
    assert r != [] ==> r[0] == t[0];
    assert AllSpace(s) ==> t == [] by {
      if t != [] { assert t[0] == s[|s| - |t|]; }
    }
    r
  }

  /** What `Trim` keeps is one contiguous piece of `s`, and everything around
      it is white space; `a` is where the piece starts. */
  lemma TrimIsInfix(s: string) returns (a: nat)
    ensures a + |Trim(s)| <= |s|
    ensures forall i | 0 <= i < |Trim(s)| :: s[a + i] == Trim(s)[i]
    ensures forall i | 0 <= i < a :: IsSpace(s[i])
    ensures forall i | a + |Trim(s)| <= i < |s| :: IsSpace(s[i])
  {
    var t := TrimStart(s);
    var r := TrimEnd(t);
    assert Trim(s) == r;
    a := |s| - |t|;
    forall i | 0 <= i < a ensures IsSpace(s[i]) {
      assert s[i] == s[..a][i];
    }
    forall i | 0 <= i < |r| ensures s[a + i] == r[i] {
      assert r[i] == t[i] == s[a + i];
    }
    forall i | a + |r| <= i < |s| ensures IsSpace(s[i]) {
      assert s[i] == t[i - a] == t[|r|..][i - a - |r|];
    }
  }

  /** `s.slice(0, end)` for an integer `end`: a negative `end` counts back
      from the end of `s`. */
  function SliceTo<T>(s: seq<T>, end: int): (r: seq<T>)
    ensures |r| <= |s| && r == s[..|r|]
    ensures 0 <= end ==> |r| == if end < |s| then end else |s|
    ensures end < 0 ==> |r| == if |s| + end < 0 then 0 else |s| + end
  {
    if 0 <= end then (if end < |s| then s[..end] else s)
    else if |s| + end < 0 then []
    else s[..|s| + end]
  }

  /** `Math.ceil(n / 3)` for an integer `n`: the least integer whose triple
      reaches `n`. */
  function CeilThird(n: int): (r: int)
    ensures n <= 3 * r < n + 3
  {
    -((-n) / 3)
  }

  /** JavaScript truthiness of a string-valued field: present and not empty. */
  predicate Truthy(v: Option<string>) {
    v.Some? && v.value != ""
  }

  /** `v || fallback` for a string-valued field. */
  function OrElse(v: Option<string>, fallback: string): (r: string)
    ensures Truthy(v) ==> r == v.value
    ensures !Truthy(v) ==> r == fallback
    ensures r == "" ==> !Truthy(v)
  {
    if Truthy(v) then v.value else fallback
  }
}
