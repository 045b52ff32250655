/**
 * The parts of Python's `str` that the core relies on: ASCII case mapping
 * (`lower`, `upper`), the whitespace of `str.isspace`, `split()` with no
 * separator, `" ".join`, and the substring test `p in s`.
 */
module Strings {

  /** The characters for which Python's `str.isspace()` holds. */
  predicate IsSpace(c: char) {
    var n := c as int;
    (9 <= n <= 13) || (28 <= n <= 32) || n == 0x85 || n == 0xA0 || n == 0x1680
    || (0x2000 <= n <= 0x200A) || n == 0x2028 || n == 0x2029 || n == 0x202F
    || n == 0x205F || n == 0x3000
  }

  predicate IsDigit(c: char) { '0' <= c <= '9' }

  predicate IsAsciiUpper(c: char) { 'A' <= c <= 'Z' }

  predicate IsAsciiLower(c: char) { 'a' <= c <= 'z' }

  function LowerChar(c: char): char {
    if IsAsciiUpper(c) then (c as int + 32) as char else c
  }

  function UpperChar(c: char): char {
    if IsAsciiLower(c) then (c as int - 32) as char else c
  }

  /** `s.lower()`, restricted to ASCII letters. */
  function Lower(s: string): (r: string)
    ensures |r| == |s|
  {
    if s == [] then [] else [LowerChar(s[0])] + Lower(s[1..])
  }

  lemma {:induction false} LowerAt(s: string)
    ensures forall i :: 0 <= i < |s| ==> Lower(s)[i] == LowerChar(s[i])
  {
    if s != [] {
      LowerAt(s[1..]);
    }
  }

  /** `s.upper()`, restricted to ASCII letters. */
  function Upper(s: string): (r: string)
    ensures |r| == |s|
  {
    if s == [] then [] else [UpperChar(s[0])] + Upper(s[1..])
  }

  lemma {:induction false} UpperAt(s: string)
    ensures forall i :: 0 <= i < |s| ==> Upper(s)[i] == UpperChar(s[i])
  {
    if s != [] {
      UpperAt(s[1..]);
    }
  }

  /** No ASCII letter of `s` is lower-case. */
  predicate IsUpperCase(s: string) {
    forall i :: 0 <= i < |s| ==> !IsAsciiLower(s[i])
  }

  /** No ASCII letter of `s` is upper-case. */
  predicate IsLowerCase(s: string) {
    forall i :: 0 <= i < |s| ==> !IsAsciiUpper(s[i])
  }

  lemma LowerIsLowerCase(s: string)
    ensures IsLowerCase(Lower(s)) && Lower(Lower(s)) == Lower(s)
  {
    LowerAt(s);
    LowerAt(Lower(s));
  }

  /** A lower-case string is its own lower-casing. */
  lemma LowerOfLowerCase(s: string)
    requires IsLowerCase(s)
    ensures Lower(s) == s
  {
    LowerAt(s);
  }

  /** A string that holds whitespace only (the empty string included). */
  predicate IsBlank(s: string) {
    forall i :: 0 <= i < |s| ==> IsSpace(s[i])
  }

  /** Lower-casing changes no whitespace character. */
  lemma LowerKeepsBlank(s: string)
    ensures IsBlank(Lower(s)) <==> IsBlank(s)
  {
    LowerAt(s);
  }

  /** `s.lstrip()`: `s` without its leading whitespace. */
  function DropSpaces(s: string): (r: string)
    ensures |r| <= |s| && r == s[|s| - |r|..]
    ensures r == [] || !IsSpace(r[0])
    ensures forall i :: 0 <= i < |s| - |r| ==> IsSpace(s[i])
  {
    if s != [] && IsSpace(s[0]) then DropSpaces(s[1..]) else s
  }

  /** The longest prefix of `s` that holds no whitespace. */
  function TakeWord(s: string): (w: string)
    ensures w <= s
    ensures forall i :: 0 <= i < |w| ==> !IsSpace(w[i])
    ensures |w| == |s| || IsSpace(s[|w|])
  {
    if s == [] || IsSpace(s[0]) then [] else [s[0]] + TakeWord(s[1..])
  }

  /** `s.split()`: the maximal runs of non-whitespace characters, in order. */
  function Words(s: string): (ws: seq<string>)
    decreases |s|
  {
    var t := DropSpaces(s);
    if t == [] then []
    else
      var w := TakeWord(t);
      [w] + Words(t[|w|..])
  }

  /** `" ".join(ws)`. */
  function Join(ws: seq<string>): string {
    if ws == [] then ""
    else if |ws| == 1 then ws[0]
    else ws[0] + " " + Join(ws[1..])
  }

  /** `s.split()` is empty exactly when `s` is blank. */
  lemma WordsEmptyIffBlank(s: string)
    ensures Words(s) == [] <==> IsBlank(s)
  {
    var t := DropSpaces(s);
    if t != [] {
      assert !IsSpace(s[|s| - |t|]);
    }
  }

  /** The first word `w` of `s` is a non-empty slice of `s` starting at `k`. */
  lemma FirstWordAt(s: string) returns (k: nat, w: string)
    requires Words(s) != []
    ensures Words(s)[0] == w && w != [] && k + |w| <= |s|
    ensures w == s[k..k + |w|]
  {
    WordsHead(s);
    var t := DropSpaces(s);
    w := TakeWord(t);
    k := |s| - |t|;
    PrefixOfSuffix(s, t, w, k);
  }

  /** `split()` of a non-blank string starts with the word after the leading whitespace. */
  lemma WordsHead(s: string)
    requires Words(s) != []
    ensures DropSpaces(s) != [] && Words(s)[0] == TakeWord(DropSpaces(s)) != []
  {
  }

  /** A prefix `w` of a suffix `t` of `s` is a slice of `s`. */
  lemma PrefixOfSuffix(s: string, t: string, w: string, k: nat)
    requires k + |t| == |s| && t == s[k..] && w <= t
    ensures k + |w| <= |s| && w == s[k..k + |w|]
  {
    assert t[..|w|] == w;
  }

  lemma UpperIsUpperCase(s: string)
    ensures IsUpperCase(Upper(s))
  {
    UpperAt(s);
  }

  lemma SliceOfUpperCase(u: string, k: nat, n: nat)
    requires IsUpperCase(u) && k + n <= |u|
    ensures IsUpperCase(u[k..k + n])
  {
    var w := u[k..k + n];
    assert forall j :: 0 <= j < n ==> w[j] == u[k + j];
  }

  /** The first word of an upper-case string is upper-case and not empty. */
  lemma FirstWordOfUpperCase(u: string)
    requires IsUpperCase(u) && Words(u) != []
    ensures IsUpperCase(Words(u)[0]) && Words(u)[0] != ""
  {
    var k, w := FirstWordAt(u);
    SliceOfUpperCase(u, k, |w|);
  }

  /** The first word of an upper-cased string is upper-case and not empty. */
  lemma FirstWordOfUpper(s: string)
    requires Words(Upper(s)) != []
    ensures IsUpperCase(Words(Upper(s))[0]) && Words(Upper(s))[0] != ""
  {
    var u := Upper(s);
    UpperIsUpperCase(s);
    FirstWordOfUpperCase(u);
  }

  /** A prefix without whitespace, followed by whitespace or the end, is what `TakeWord` takes. */
  lemma {:induction false} TakeWordIs(s: string, w: string)
    requires w <= s && (forall i :: 0 <= i < |w| ==> !IsSpace(w[i]))
    requires |w| == |s| || IsSpace(s[|w|])
    ensures TakeWord(s) == w
  {
    if w != [] {
      TakeWordIs(s[1..], w[1..]);
    }
  }

  /** The first word of a string that starts with a word `w`. */
  lemma FirstWordIs(s: string, w: string)
    requires w != [] && w <= s && (forall i :: 0 <= i < |w| ==> !IsSpace(w[i]))
    requires |w| == |s| || IsSpace(s[|w|])
    ensures Words(s) != [] && Words(s)[0] == w
  {
    assert DropSpaces(s) == s;
    TakeWordIs(s, w);
  }

  /** `p in s`: `p` occurs in `s` as a contiguous substring. */
  predicate Contains(s: string, p: string)
    decreases |s|
  {
    p <= s || (s != [] && Contains(s[1..], p))
  }

  /** `Contains` holds exactly when `p` starts at some position of `s`. */
  lemma {:induction false} ContainsIff(s: string, p: string)
    ensures Contains(s, p) <==> exists i :: 0 <= i <= |s| && p <= s[i..]
    decreases |s|
  {
    if s != [] {
      ContainsIff(s[1..], p);
      if Contains(s, p) {
        if p <= s {
          assert s[0..] == s;
        } else {
          var i :| 0 <= i <= |s[1..]| && p <= s[1..][i..];
          assert s[1..][i..] == s[i + 1..];
        }
      }
      if exists i :: 0 <= i <= |s| && p <= s[i..] {
        var i :| 0 <= i <= |s| && p <= s[i..];
        if i == 0 {
          assert s[0..] == s;
        } else {
          assert s[1..][i - 1..] == s[i..];
        }
      }
    } else {
      assert forall i :: 0 <= i <= |s| ==> s[i..] == s;
    }
  }

  /** `p` cannot occur in `s` when its first character does not. */
  lemma {:induction false} NotContainsFirst(s: string, p: string)
    requires p != [] && p[0] !in s
    ensures !Contains(s, p)
    decreases |s|
  {
    if s != [] {
      assert s[1..] == s[1..];
      assert forall c :: c in s[1..] ==> c in s;
      NotContainsFirst(s[1..], p);
    }
  }

  /** An occurrence of `p` at position `i` of `s` makes `Contains(s, p)` true. */
  lemma ContainsAt(s: string, p: string, i: nat)
    requires i <= |s| && p <= s[i..]
    ensures Contains(s, p)
  {
    ContainsIff(s, p);
  }
}
