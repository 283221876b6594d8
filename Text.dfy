/** String helpers with Python's semantics: `str.strip()` with no argument,
    `' '.join(parts)` and the position of the first occurrence of a character
    (what `str.split(sep, 1)` cuts at). */
module Text {

  /** Python's `str.isspace()` for one character: the ASCII controls TAB..CR
      and FS..US, the space, and the Unicode separators Python counts as
      whitespace. */
  predicate IsSpace(c: char) {
    c == ' ' || ('\t' <= c <= '\r') || ('\U{1c}' <= c <= '\U{1f}') ||
    c == '\U{85}' || c == '\U{a0}' || c == '\U{1680}' ||
    ('\U{2000}' <= c <= '\U{200a}') || c == '\U{2028}' || c == '\U{2029}' ||
    c == '\U{202f}' || c == '\U{205f}' || c == '\U{3000}'
  }

  /** Neither end of `s` is whitespace: what `str.strip()` leaves unchanged. */
  predicate IsStripped(s: string) {
    s == [] || (!IsSpace(s[0]) && !IsSpace(s[|s| - 1]))
  }

  /** Where the whitespace that starts at `i` ends: what `lstrip()` skips. */
  function LeadingEnd(s: string, i: nat): (j: nat)
    requires i <= |s|
    ensures i <= j <= |s|
    decreases |s| - i
  {
    if i < |s| && IsSpace(s[i]) then LeadingEnd(s, i + 1) else i
  }

  /** Where the whitespace that ends at `j` (and not before `lo`) starts:
      what `rstrip()` keeps up to. */
  function TrailingStart(s: string, lo: nat, j: nat): (k: nat)
    requires lo <= j <= |s|
    ensures lo <= k <= j
    decreases j
  {
    if lo < j && IsSpace(s[j - 1]) then TrailingStart(s, lo, j - 1) else j
  }

  /** Everything `lstrip()` skips is whitespace, and it stops at the end or
      at a non-space. */
  lemma {:induction false} LeadingEndSpaces(s: string, i: nat)
    requires i <= |s|
    ensures forall k :: i <= k < LeadingEnd(s, i) ==> IsSpace(s[k])
    ensures LeadingEnd(s, i) == |s| || !IsSpace(s[LeadingEnd(s, i)])
    decreases |s| - i
  {
    if i < |s| && IsSpace(s[i]) {
      LeadingEndSpaces(s, i + 1);
    }
  }

  /** Everything `rstrip()` drops is whitespace, and it stops at `lo` or
      after a non-space. */
  lemma {:induction false} TrailingStartSpaces(s: string, lo: nat, j: nat)
    requires lo <= j <= |s|
    ensures forall k :: TrailingStart(s, lo, j) <= k < j ==> IsSpace(s[k])
    ensures TrailingStart(s, lo, j) == lo || !IsSpace(s[TrailingStart(s, lo, j) - 1])
    decreases j
  {
    if lo < j && IsSpace(s[j - 1]) {
      TrailingStartSpaces(s, lo, j - 1);
    }
  }

  /** The bounds of what `s.strip()` keeps. */
  function StripBounds(s: string): (b: (nat, nat))
    ensures b.0 <= b.1 <= |s|
  {
    var a := LeadingEnd(s, 0);
    (a, TrailingStart(s, a, |s|))
  }

  /** `s.strip()`: the part of `s` between its leading and its trailing
      whitespace. */
  function Strip(s: string): (r: string)
    ensures IsStripped(r) && |r| <= |s|
  {
    var b := StripBounds(s);
    LeadingEndSpaces(s, 0);
    TrailingStartSpaces(s, b.0, |s|);
    s[b.0..b.1]
  }

  /** `strip()` cuts `s` into all-whitespace leading and trailing parts
      around what it keeps: nothing but whitespace is dropped. */
  lemma StripParts(s: string)
    ensures s == s[..StripBounds(s).0] + Strip(s) + s[StripBounds(s).1..]
    ensures forall k :: 0 <= k < StripBounds(s).0 ==> IsSpace(s[k])
    ensures forall k :: StripBounds(s).1 <= k < |s| ==> IsSpace(s[k])
  {
    var b := StripBounds(s);
    LeadingEndSpaces(s, 0);
    TrailingStartSpaces(s, b.0, |s|);
    assert s == s[..b.0] + s[b.0..b.1] + s[b.1..];
  }

  /** Every character `strip()` keeps comes from its argument. */
  lemma StripInfix(s: string, k: nat)
    requires k < |Strip(s)|
    ensures Strip(s)[k] in s
  {
    var b := StripBounds(s);
    assert Strip(s)[k] == s[b.0 + k];
  }

  /** `strip()` leaves nothing exactly when every character is whitespace. */
  lemma StripBlank(s: string)
    ensures Strip(s) == [] <==> forall i :: 0 <= i < |s| ==> IsSpace(s[i])
  {
    var b := StripBounds(s);
    LeadingEndSpaces(s, 0);
    TrailingStartSpaces(s, b.0, |s|);
    if Strip(s) == [] {
      assert b.0 == b.1;
    }
  }

  /** A string whose ends are not whitespace is its own strip. */
  lemma StripStripped(s: string)
    requires IsStripped(s)
    ensures Strip(s) == s
  {
    var b := StripBounds(s);
    if s != [] {
      assert b.0 == 0;
      assert b.1 == |s|;
    }
  }

  /** Trailing whitespace added to a string does not survive `strip()`. */
  lemma StripTrailingSpace(s: string, c: char)
    requires IsSpace(c)
    ensures Strip(s + [c]) == Strip(s)
  {
    var t := s + [c];
    var a := LeadingEnd(s, 0);
    LeadingEndAppend(s, c, 0);
    assert LeadingEnd(t, 0) == if a == |s| then |t| else a;
    if a < |s| {
      TrailingStartAppend(s, c, a);
      assert t[a..TrailingStart(t, a, |t|)] == s[a..TrailingStart(s, a, |s|)];
    }
  }

  /** Skipping leading whitespace in `s + [c]`, for a space `c`, stops where
      it stops in `s`, or at the very end when `s` has nothing else. */
  lemma {:induction false} LeadingEndAppend(s: string, c: char, i: nat)
    requires IsSpace(c) && i <= |s|
    ensures LeadingEnd(s + [c], i) == if LeadingEnd(s, i) == |s| then |s| + 1 else LeadingEnd(s, i)
    decreases |s| - i
  {
    var t := s + [c];
    if i < |s| {
      assert t[i] == s[i];
      if IsSpace(s[i]) {
        LeadingEndAppend(s, c, i + 1);
      }
    } else {
      assert t[i] == c;
      assert LeadingEnd(t, i + 1) == i + 1;
    }
  }

  /** Dropping trailing whitespace from `s + [c]`, for a space `c`, drops `c`
      and then whatever it drops from `s`. */
  lemma TrailingStartAppend(s: string, c: char, lo: nat)
    requires IsSpace(c) && lo <= |s|
    ensures TrailingStart(s + [c], lo, |s| + 1) == TrailingStart(s, lo, |s|)
  {
    var t := s + [c];
    assert t[|s|] == c;
    TrailingStartPrefix(s, c, lo, |s|);
  }

  /** Below the appended character, `s + [c]` and `s` drop the same. */
  lemma {:induction false} TrailingStartPrefix(s: string, c: char, lo: nat, j: nat)
    requires lo <= j <= |s|
    ensures TrailingStart(s + [c], lo, j) == TrailingStart(s, lo, j)
    decreases j
  {
    if lo < j {
      assert (s + [c])[j - 1] == s[j - 1];
      TrailingStartPrefix(s, c, lo, j - 1);
    }
  }

  /** `' '.join(parts)`. */
  function Join(parts: seq<string>): string {
    if parts == [] then ""
    else if |parts| == 1 then parts[0]
    else parts[0] + " " + Join(parts[1..])
  }

  /** The two sides of a separator character. */
  lemma SplitAround(a: string, b: string, c: char)
    ensures (a + [c] + b)[..|a|] == a && (a + [c] + b)[|a| + 1..] == b
  {
    var s := a + [c] + b;
    assert s[..|a|] == a;
    assert s[|a| + 1..] == b;
  }

  /** The position of the first `c` in `s`: `s.split(c, 1)` cuts there. */
  function FirstIndex(s: string, c: char): (i: nat)
    requires c in s
    ensures i < |s| && s[i] == c && c !in s[..i]
  {
    if s[0] == c then 0
    else
      var j := FirstIndex(s[1..], c);
      assert s[1..][..j] == s[1..j + 1];
      assert s[..j + 1] == [s[0]] + s[1..j + 1];
      j + 1
  }
}
