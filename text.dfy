/**
 * The JavaScript string built-ins the scripts rely on: `toLowerCase` (on ASCII
 * letters), `endsWith`, `includes`, `Array.prototype.join` and `trim`.
 */
module Text {

  predicate IsUpper(c: char) { 'A' <= c <= 'Z' }

  predicate IsLower(c: char) { 'a' <= c <= 'z' }

  predicate IsDigit(c: char) { '0' <= c <= '9' }

  /** `toLowerCase` on one character: A-Z become a-z, anything else is kept. */
  function LowerChar(c: char): char
  {
    if IsUpper(c) then (c as int + 32) as char else c
  }

  /** `s.toLowerCase()` for ASCII letters. */
  function ToLower(s: string): (r: string)
    ensures |r| == |s|
    ensures forall i :: 0 <= i < |s| ==> !IsUpper(r[i])
    ensures forall i :: 0 <= i < |s| ==> (IsUpper(s[i]) || r[i] == s[i])
    ensures forall i :: 0 <= i < |s| && IsUpper(s[i]) ==> r[i] as int - 'a' as int == s[i] as int - 'A' as int
  {
    seq(|s|, i requires 0 <= i < |s| => LowerChar(s[i]))
  }

  lemma ToLowerAppend(a: string, b: string)
    ensures ToLower(a + b) == ToLower(a) + ToLower(b)
  {
    assert forall i :: 0 <= i < |a + b| ==> ToLower(a + b)[i] == (ToLower(a) + ToLower(b))[i];
  }

  /** A string with no upper-case letter is its own lower-case form. */
  lemma ToLowerFixpoint(s: string)
    requires forall i :: 0 <= i < |s| ==> !IsUpper(s[i])
    ensures ToLower(s) == s
  {
  }

  /** `s.endsWith(suffix)`. */
  predicate EndsWith(s: string, suffix: string)
  {
    |suffix| <= |s| && s[|s| - |suffix|..] == suffix
  }

  /** `p` occurs in `s` starting at position `i`. */
  predicate OccursAt(p: string, s: string, i: int)
  {
    0 <= i <= |s| - |p| && s[i..i + |p|] == p
  }

  /** `p` occurs in `s` as a contiguous run of characters. */
  ghost predicate Occurs(p: string, s: string)
  {
    exists i :: OccursAt(p, s, i)
  }

  /** `s.includes(p)`, computed by trying every starting position in turn. */
  function Includes(s: string, p: string): (r: bool)
    ensures r <==> Occurs(p, s)
    decreases |s|
  {
    if |p| > |s| then false
    else if s[..|p|] == p then assert OccursAt(p, s, 0); true
    else
      var rest := Includes(s[1..], p);
      assert rest ==> Occurs(p, s) by {
        if rest {
          var i :| OccursAt(p, s[1..], i);
          assert s[i + 1..i + 1 + |p|] == p;
          assert OccursAt(p, s, i + 1);
        }
      }
      assert Occurs(p, s) ==> rest by {
        if Occurs(p, s) {
          var i :| OccursAt(p, s, i);
          assert i != 0;
          assert s[1..][i - 1..i - 1 + |p|] == p;
          assert OccursAt(p, s[1..], i - 1);
        }
      }
      rest
  }

  /** A string occurs in any string built around it. */
  lemma OccursIn(a: string, p: string, b: string)
    ensures Occurs(p, a + p + b)
  {
    assert (a + p + b)[|a|..|a| + |p|] == p;
    assert OccursAt(p, a + p + b, |a|);
  }

  /** Each of two strings set between fixed pieces occurs in the result. */
  lemma OccursInTemplate2(a: string, x: string, b: string, y: string, c: string)
    ensures Occurs(x, a + x + b + y + c)
    ensures Occurs(y, a + x + b + y + c)
  {
    OccursIn(a, x, b + y + c);
    assert a + x + (b + y + c) == a + x + b + y + c;
    OccursIn(a + x + b, y, c);
  }

  /** Each of three strings set between fixed pieces occurs in the result. */
  lemma OccursInTemplate3(a: string, x: string, b: string, y: string, c: string, z: string, d: string)
    ensures Occurs(x, a + x + b + y + c + z + d)
    ensures Occurs(y, a + x + b + y + c + z + d)
    ensures Occurs(z, a + x + b + y + c + z + d)
  {
    OccursInTemplate2(a, x, b, y, c + z + d);
    assert a + x + b + y + (c + z + d) == a + x + b + y + c + z + d;
    OccursIn(a + x + b + y + c, z, d);
  }

  /** `parts.join(sep)`. */
  function Join(parts: seq<string>, sep: string): string
  {
    if |parts| == 0 then ""
    else if |parts| == 1 then parts[0]
    else parts[0] + sep + Join(parts[1..], sep)
  }

  /** The joined string is empty exactly when there is nothing to join or a single empty part. */
  lemma JoinEmptyIff(parts: seq<string>, sep: string)
    requires sep != ""
    ensures Join(parts, sep) == "" <==> |parts| == 0 || (|parts| == 1 && parts[0] == "")
  {
  }

  /**
   * Joining is order-preserving: the joined string of the first `k` parts, a
   * separator, and the joined string of the rest make up the whole.
   */
  lemma {:induction false} JoinSplit(parts: seq<string>, sep: string, k: nat)
    requires 0 < k < |parts|
    ensures Join(parts, sep) == Join(parts[..k], sep) + sep + Join(parts[k..], sep)
  {
    if k > 1 {
      JoinSplit(parts[1..], sep, k - 1);
      assert parts[1..][..k - 1] == parts[..k][1..];
      assert parts[1..][k - 1..] == parts[k..];
    }
  }

  /** An occurrence in `s` is still one after more text is put in front. */
  lemma OccursAfterPrefix(p: string, pre: string, s: string)
    requires Occurs(p, s)
    ensures Occurs(p, pre + s)
  {
    var i :| OccursAt(p, s, i);
    assert (pre + s)[|pre| + i..|pre| + i + |p|] == s[i..i + |p|];
    assert OccursAt(p, pre + s, |pre| + i);
  }

  /** Every part occurs in the joined string. */
  lemma {:induction false} JoinContainsParts(parts: seq<string>, sep: string, k: nat)
    requires k < |parts|
    ensures Occurs(parts[k], Join(parts, sep))
  {
    if |parts| == 1 {
      OccursIn("", parts[0], "");
      assert "" + parts[0] + "" == parts[0];
    } else if k == 0 {
      OccursIn("", parts[0], sep + Join(parts[1..], sep));
      assert "" + parts[0] + (sep + Join(parts[1..], sep)) == Join(parts, sep);
    } else {
      JoinContainsParts(parts[1..], sep, k - 1);
      OccursAfterPrefix(parts[k], parts[0] + sep, Join(parts[1..], sep));
    }
  }

  /** The characters `trim` removes: ECMAScript's WhiteSpace and LineTerminator characters. */
  predicate IsJsWhitespace(c: char)
  {
    || c == '\t' || c == '\n' || c == '\U{B}' || c == '\U{C}' || c == '\r' || c == ' '
    || c == '\U{A0}' || c == '\U{1680}' || ('\U{2000}' <= c <= '\U{200A}')
    || c == '\U{2028}' || c == '\U{2029}' || c == '\U{202F}' || c == '\U{205F}'
    || c == '\U{3000}' || c == '\U{FEFF}'
  }

  /** The length of the run of whitespace that starts `s`. */
  function LeadingSpaces(s: string): (n: nat)
    ensures n <= |s|
    ensures forall j :: 0 <= j < n ==> IsJsWhitespace(s[j])
    ensures n == |s| || !IsJsWhitespace(s[n])
  {
    if s == [] || !IsJsWhitespace(s[0]) then 0 else 1 + LeadingSpaces(s[1..])
  }

  /** The length of the run of whitespace that ends `s`. */
  function TrailingSpaces(s: string): (n: nat)
    ensures n <= |s|
    ensures forall j :: |s| - n <= j < |s| ==> IsJsWhitespace(s[j])
    ensures n == |s| || !IsJsWhitespace(s[|s| - 1 - n])
  {
    if s == [] || !IsJsWhitespace(s[|s| - 1]) then 0 else 1 + TrailingSpaces(s[..|s| - 1])
  }

  /** No whitespace at either end. */
  predicate IsTrimmed(s: string)
  {
    s == [] || (!IsJsWhitespace(s[0]) && !IsJsWhitespace(s[|s| - 1]))
  }

  /** `s.trim()`: the middle of `s`, after the whitespace at both ends is dropped. */
  function Trim(s: string): (r: string)
    ensures IsTrimmed(r)
    ensures exists i, j :: 0 <= i <= j <= |s| && r == s[i..j]
              && (forall k :: 0 <= k < i ==> IsJsWhitespace(s[k]))
              && (forall k :: j <= k < |s| ==> IsJsWhitespace(s[k]))
  {
    var a := LeadingSpaces(s);
    var t := s[a..];
    var b := TrailingSpaces(t);
    assert t[..|t| - b] == s[a..|s| - b];
    s[a..|s| - b]
  }

  /** Trimming twice trims no more than trimming once. */
  lemma TrimIdempotent(s: string)
    ensures Trim(Trim(s)) == Trim(s)
  {
    var r := Trim(s);
    assert LeadingSpaces(r) == 0;
    assert TrailingSpaces(r[LeadingSpaces(r)..]) == 0;
  }
}
