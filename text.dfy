/** The string operations the routes rely on: Python's `str.strip()`,
    `str.lower()` and `sep.join(parts)`. */
module Text {

  /** The characters Python's `str.isspace()` accepts, which are the ones
      `str.strip()` removes when called without arguments. */
  predicate IsSpace(c: char) {
    var n := c as int;
    (0x09 <= n <= 0x0D) || (0x1C <= n <= 0x20) || n == 0x85 || n == 0xA0 || n == 0x1680
    || (0x2000 <= n <= 0x200A) || n == 0x2028 || n == 0x2029 || n == 0x202F || n == 0x205F
    || n == 0x3000
  }

  /** The length of the whitespace run at the start of `s`. */
  function LeadingSpace(s: string): (k: nat)
    ensures k <= |s|
    ensures forall i :: 0 <= i < k ==> IsSpace(s[i])
    ensures k < |s| ==> !IsSpace(s[k])
  {
    if s != [] && IsSpace(s[0]) then 1 + LeadingSpace(s[1..]) else 0
  }

  /** The length of the whitespace run at the end of `s`. */
  function TrailingSpace(s: string): (k: nat)
    ensures k <= |s|
    ensures forall i :: |s| - k <= i < |s| ==> IsSpace(s[i])
    ensures k < |s| ==> !IsSpace(s[|s| - 1 - k])
  {
    if s != [] && IsSpace(s[|s| - 1]) then 1 + TrailingSpace(s[..|s| - 1]) else 0
  }

  /** `s.strip()`: the slice of `s` left once the whitespace run at each end
      is cut off. */
  function Strip(s: string): (r: string)
    ensures r == [] || (!IsSpace(r[0]) && !IsSpace(r[|r| - 1]))
    ensures var k := LeadingSpace(s);
            k + |r| <= |s| && r == s[k..k + |r|]
            && forall i :: k + |r| <= i < |s| ==> IsSpace(s[i])
  {
    var k := LeadingSpace(s);
    var t := s[k..];
    var j := TrailingSpace(t);
    assert forall i :: |s| - j <= i < |s| ==> IsSpace(s[i]) by {
      forall i | |s| - j <= i < |s| ensures IsSpace(s[i]) {
        assert s[i] == t[i - k];
      }
    }
    s[k..|s| - j]
  }

  /** A string strips to nothing exactly when every character is whitespace. */
  lemma StripEmpty(s: string)
    ensures Strip(s) == [] <==> forall i :: 0 <= i < |s| ==> IsSpace(s[i])
  {
    if Strip(s) != [] {
      var k := LeadingSpace(s);
      assert s[k] == Strip(s)[0];
    }
  }

  /** A string with no whitespace at either end strips to itself. */
  lemma StripUnchanged(s: string)
    requires s == [] || (!IsSpace(s[0]) && !IsSpace(s[|s| - 1]))
    ensures Strip(s) == s
  {
    assert LeadingSpace(s) == 0;
    assert s[0..] == s;
  }

  /** The result of `Strip` is determined by its contract: when only
      whitespace precedes position `a` and follows position `b`, and the
      slice between them has no whitespace at either end, that slice is what
      `Strip` returns. */
  lemma StripAt(s: string, a: nat, b: nat)
    requires a <= b <= |s|
    requires forall i :: 0 <= i < a ==> IsSpace(s[i])
    requires forall i :: b <= i < |s| ==> IsSpace(s[i])
    requires a == b || (!IsSpace(s[a]) && !IsSpace(s[b - 1]))
    ensures Strip(s) == s[a..b]
  {
    if a == b {
      StripEmpty(s);
    } else {
      var k := LeadingSpace(s);
      assert k == a;
      var t := Strip(s);
      assert t != [];
      assert t[|t| - 1] == s[k + |t| - 1];
      assert |t| == b - a;
    }
  }

  /** Positions `[lo, hi)` of `s` hold whitespace. */
  ghost predicate SpaceBetween(s: string, lo: int, hi: int) {
    forall i :: lo <= i < hi && 0 <= i < |s| ==> IsSpace(s[i])
  }

  /** A string that starts with whitespace strips like its tail. */
  lemma StripDropsFirst(w: string)
    requires w != [] && IsSpace(w[0])
    ensures Strip(w) == Strip(w[1..])
  {
    var t := w[1..];
    var k := LeadingSpace(t);
    assert LeadingSpace(w) == 1 + k;
    assert w[1 + k..] == t[k..];
  }

  /** A string whose first `n` characters are whitespace strips like the
      rest of it. */
  lemma {:induction false} StripDropsLeading(w: string, n: nat)
    requires n <= |w| && SpaceBetween(w, 0, n)
    ensures Strip(w) == Strip(w[n..])
  {
    if n > 0 {
      StripDropsFirst(w);
      var t := w[1..];
      assert SpaceBetween(t, 0, n - 1) by {
        forall i | 0 <= i < n - 1 ensures IsSpace(t[i]) {
          assert t[i] == w[i + 1];
        }
      }
      StripDropsLeading(t, n - 1);
      assert t[n - 1..] == w[n..];
    }
  }

  /** The whitespace run at the start of `s` is determined by its contract. */
  lemma LeadingSpaceIs(s: string, k: nat)
    requires k <= |s| && forall i :: 0 <= i < k ==> IsSpace(s[i])
    requires k == |s| || !IsSpace(s[k])
    ensures LeadingSpace(s) == k
  {
  }

  /** A string that ends with whitespace strips like the string without its
      last character. */
  lemma StripDropsLast(w: string)
    requires w != [] && IsSpace(w[|w| - 1])
    ensures Strip(w) == Strip(w[..|w| - 1])
  {
    var u := w[..|w| - 1];
    var k := LeadingSpace(u);
    if k == |u| {
      forall i | 0 <= i < |w| ensures IsSpace(w[i]) {
        if i < |u| {
          assert w[i] == u[i];
        }
      }
      StripEmpty(u);
      StripEmpty(w);
    } else {
      forall i | 0 <= i < k ensures IsSpace(w[i]) {
        assert w[i] == u[i];
      }
      assert w[k] == u[k];
      LeadingSpaceIs(w, k);
      var v := w[k..];
      assert v[..|v| - 1] == u[k..];
      assert TrailingSpace(v) == 1 + TrailingSpace(u[k..]);
    }
  }

  /** A string whose characters from `n` on are whitespace strips like its
      first `n` characters. */
  lemma {:induction false} StripDropsTrailing(w: string, n: nat)
    requires n <= |w| && SpaceBetween(w, n, |w|)
    ensures Strip(w) == Strip(w[..n])
    decreases |w| - n
  {
    if n < |w| {
      StripDropsLast(w);
      var u := w[..|w| - 1];
      assert SpaceBetween(u, n, |u|) by {
        forall i | n <= i < |u| ensures IsSpace(u[i]) {
          assert u[i] == w[i];
        }
      }
      StripDropsTrailing(u, n);
      assert u[..n] == w[..n];
    } else {
      assert w[..n] == w;
    }
  }

  /** Whitespace put in front is stripped away with the rest. */
  lemma StripIgnoresPrefix(pre: string, s: string)
    requires SpaceBetween(pre, 0, |pre|)
    ensures Strip(pre + s) == Strip(s)
  {
    var w := pre + s;
    forall i | 0 <= i < |pre| ensures IsSpace(w[i]) {
      assert w[i] == pre[i];
    }
    assert w[|pre|..] == s;
    StripDropsLeading(w, |pre|);
  }

  /** Whitespace put behind is stripped away with the rest. */
  lemma StripIgnoresSuffix(s: string, post: string)
    requires SpaceBetween(post, 0, |post|)
    ensures Strip(s + post) == Strip(s)
  {
    var w := s + post;
    forall i | |s| <= i < |w| ensures IsSpace(w[i]) {
      assert w[i] == post[i - |s|];
    }
    assert w[..|s|] == s;
    StripDropsTrailing(w, |s|);
  }

  /** Whitespace added at either end is stripped away with the rest. */
  lemma StripIgnoresPadding(pre: string, s: string, post: string)
    requires SpaceBetween(pre, 0, |pre|) && SpaceBetween(post, 0, |post|)
    ensures Strip(pre + s + post) == Strip(s)
  {
    StripIgnoresSuffix(pre + s, post);
    StripIgnoresPrefix(pre, s);
  }

  /** Two strings of the same length with whitespace in the same places strip
      to the slices between the same positions. */
  lemma StripSameSpaces(s: string, l: string)
    requires |l| == |s| && forall i :: 0 <= i < |s| ==> (IsSpace(l[i]) <==> IsSpace(s[i]))
    ensures var k := LeadingSpace(s); Strip(l) == l[k..k + |Strip(s)|]
  {
    var k := LeadingSpace(s);
    var r := Strip(s);
    if r != [] {
      assert r[0] == s[k] && r[|r| - 1] == s[k + |r| - 1];
    }
    StripAt(l, k, k + |r|);
  }

  /** Lower-casing a slice is slicing the lower-cased string. */
  lemma LowerSlice(s: string, a: nat, b: nat)
    requires a <= b <= |s|
    ensures Lower(s)[a..b] == Lower(s[a..b])
  {
    var l := Lower(s);
    forall i | 0 <= i < b - a ensures l[a..b][i] == Lower(s[a..b])[i] {
      assert s[a..b][i] == s[a + i];
    }
  }

  /** Strings that are equal up to letter case have the same length and
      whitespace in the same places. */
  lemma CaseEqualKeepsSpaces(a: string, b: string)
    requires Lower(a) == Lower(b)
    ensures |a| == |b| && forall i :: 0 <= i < |a| ==> (IsSpace(b[i]) <==> IsSpace(a[i]))
  {
    forall i | 0 <= i < |a| ensures IsSpace(b[i]) <==> IsSpace(a[i]) {
      assert IsSpace(Lower(a)[i]) <==> IsSpace(a[i]);
      assert IsSpace(Lower(b)[i]) <==> IsSpace(b[i]);
    }
  }

  /** Slices of strings that are equal up to letter case are equal up to
      letter case. */
  lemma CaseEqualSlices(a: string, b: string, x: nat, y: nat)
    requires Lower(a) == Lower(b) && x <= y <= |a|
    ensures Lower(a[x..y]) == Lower(b[x..y])
  {
    LowerSlice(a, x, y);
    LowerSlice(b, x, y);
  }

  /** Strings that are equal up to letter case strip to strings that are
      equal up to letter case. */
  lemma StripKeepsCaseEquality(a: string, b: string)
    requires Lower(a) == Lower(b)
    ensures Lower(Strip(a)) == Lower(Strip(b))
  {
    var k := LeadingSpace(a);
    var sa := Strip(a);
    var sb := Strip(b);
    assert sa == a[k..k + |sa|];
    CaseEqualKeepsSpaces(a, b);
    StripSameSpaces(a, b);
    assert sb == b[k..k + |sa|];
    CaseEqualSlices(a, b, k, k + |sa|);
  }

  /** Stripping twice is stripping once. */
  lemma StripIdempotent(s: string)
    ensures Strip(Strip(s)) == Strip(s)
  {
    StripUnchanged(Strip(s));
  }

  /** The upper-case letters whose lower-case form lies 0x20 code points
      above them: ASCII, Latin-1, Greek, basic Cyrillic and fullwidth Latin. */
  predicate IsUpper(c: char) {
    var n := c as int;
    (0x41 <= n <= 0x5A) || (0xC0 <= n <= 0xDE && n != 0xD7) || (0x391 <= n <= 0x3A9 && n != 0x3A2)
    || (0x410 <= n <= 0x42F) || (0xFF21 <= n <= 0xFF3A)
  }

  /** `c.lower()` for one character: an upper-case letter becomes the letter
      0x20 code points above it, and any other character stays as it is. */
  function LowerChar(c: char): (d: char)
    ensures !IsUpper(d)
    ensures IsSpace(d) <==> IsSpace(c)
    ensures IsUpper(c) ==> d as int == c as int + 0x20
    ensures !IsUpper(c) ==> d == c
  {
    if IsUpper(c) then (c as int + 0x20) as char else c
  }

  /** `s.lower()`: same length, every upper-case letter replaced by its
      lower-case form 0x20 code points above it, every other character kept
      as it is; so no upper-case letter is left and whitespace stays where it
      was. */
  function Lower(s: string): (r: string)
    ensures |r| == |s|
    ensures forall i :: 0 <= i < |r| && IsUpper(s[i]) ==> r[i] as int == s[i] as int + 0x20
    ensures forall i :: 0 <= i < |r| && !IsUpper(s[i]) ==> r[i] == s[i]
    ensures forall i :: 0 <= i < |r| ==> !IsUpper(r[i])
    ensures forall i :: 0 <= i < |r| ==> (IsSpace(r[i]) <==> IsSpace(s[i]))
  {
    seq(|s|, i requires 0 <= i < |s| => LowerChar(s[i]))
  }

  /** Lower-casing a string that is already lower case changes nothing. */
  lemma LowerIdempotent(s: string)
    ensures Lower(Lower(s)) == Lower(s)
  {
  }

  /** `sep.join(parts)`. */
  function Join(parts: seq<string>, sep: string): (r: string)
    ensures parts == [] ==> r == ""
    ensures |parts| == 1 ==> r == parts[0]
    ensures |parts| == 2 ==> r == parts[0] + sep + parts[1]
  {
    if parts == [] then ""
    else if |parts| == 1 then parts[0]
    else Join(parts[..|parts| - 1], sep) + sep + parts[|parts| - 1]
  }
}
