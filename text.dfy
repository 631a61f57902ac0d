/**
 * The Python string operations the converters apply to their input:
 * `str.replace(" ", "")`, `str.lower()`, `str.upper()`, `str.strip()`
 * and `str.split("/")`.
 */
module Text {

  /** `str.lower()` on one character; only ASCII letters are mapped. */
  function ToLowerChar(c: char): char {
    if 'A' <= c <= 'Z' then (c as int + 32) as char else c
  }

  /** `str.upper()` on one character; only ASCII letters are mapped. */
  function ToUpperChar(c: char): char {
    if 'a' <= c <= 'z' then (c as int - 32) as char else c
  }

  /** `s.lower()`: no upper-case letter is left, and each character keeps its letter. */
  function Lower(s: string): (r: string)
    ensures |r| == |s|
    ensures forall i :: 0 <= i < |s| ==> !('A' <= r[i] <= 'Z') && ToUpperChar(r[i]) == ToUpperChar(s[i])
    ensures forall i :: 0 <= i < |s| && !('A' <= s[i] <= 'Z') ==> r[i] == s[i]
  {
    seq(|s|, i requires 0 <= i < |s| => ToLowerChar(s[i]))
  }

  /** `s.upper()`: no lower-case letter is left, and each character keeps its letter. */
  function Upper(s: string): (r: string)
    ensures |r| == |s|
    ensures forall i :: 0 <= i < |s| ==> !('a' <= r[i] <= 'z') && ToLowerChar(r[i]) == ToLowerChar(s[i])
    ensures forall i :: 0 <= i < |s| && !('a' <= s[i] <= 'z') ==> r[i] == s[i]
  {
    seq(|s|, i requires 0 <= i < |s| => ToUpperChar(s[i]))
  }

  /** Lower-casing twice is lower-casing once. */
  lemma LowerTwice(s: string)
    ensures Lower(Lower(s)) == Lower(s)
  {
    forall i | 0 <= i < |s| ensures Lower(Lower(s))[i] == Lower(s)[i] {
      assert !('A' <= Lower(s)[i] <= 'Z');
    }
  }

  lemma UpperAppend(a: string, b: string)
    ensures Upper(a + b) == Upper(a) + Upper(b)
  {
  }

  /** Upper-casing forgets a previous lower-casing. */
  lemma UpperLower(s: string)
    ensures Upper(Lower(s)) == Upper(s)
  {
    forall i | 0 <= i < |s| ensures Upper(Lower(s))[i] == Upper(s)[i] {
      var c := s[i];
      if 'A' <= c <= 'Z' {
        assert ToLowerChar(c) as int == c as int + 32;
      }
    }
  }

  /** `s.replace(" ", "")`: every U+0020 is dropped and nothing else. */
  function RemoveSpaces(s: string): (r: string)
    ensures ' ' !in r
    ensures |r| <= |s|
  {
    if s == [] then []
    else if s[0] == ' ' then RemoveSpaces(s[1..])
    else [s[0]] + RemoveSpaces(s[1..])
  }

  lemma {:induction false} RemoveSpacesAppend(a: string, b: string)
    ensures RemoveSpaces(a + b) == RemoveSpaces(a) + RemoveSpaces(b)
  {
    if a == [] {
      assert a + b == b;
    } else {
      assert (a + b)[1..] == a[1..] + b;
      RemoveSpacesAppend(a[1..], b);
    }
  }

  lemma {:induction false} RemoveSpacesKeeps(s: string)
    requires ' ' !in s
    ensures RemoveSpaces(s) == s
  {
    if s != [] {
      assert s[0] in s;
      assert forall c :: c in s[1..] ==> c in s;
      RemoveSpacesKeeps(s[1..]);
    }
  }

  /** Lower-casing neither creates nor removes spaces, so the two steps commute. */
  lemma {:induction false} LowerRemoveSpaces(s: string)
    ensures Lower(RemoveSpaces(s)) == RemoveSpaces(Lower(s))
  {
    if s != [] {
      assert Lower(s)[1..] == Lower(s[1..]);
      assert Lower(s)[0] == ' ' <==> s[0] == ' ';
      LowerRemoveSpaces(s[1..]);
      if s[0] != ' ' {
        assert Lower([s[0]] + RemoveSpaces(s[1..])) == [ToLowerChar(s[0])] + Lower(RemoveSpaces(s[1..]));
      }
    }
  }

  /** The characters for which Python's `str.isspace()` holds. */
  predicate IsSpace(c: char) {
    var n := c as int;
    n == 0x20 || 0x09 <= n <= 0x0D || 0x1C <= n <= 0x1F || n == 0x85 || n == 0xA0
    || n == 0x1680 || 0x2000 <= n <= 0x200A || n == 0x2028 || n == 0x2029
    || n == 0x202F || n == 0x205F || n == 0x3000
  }

  /** Text made only of whitespace. */
  predicate AllSpace(w: string) {
    forall i :: 0 <= i < |w| ==> IsSpace(w[i])
  }

  /** The number of whitespace characters `s` starts with. */
  function LeadingSpace(s: string): (n: nat)
    ensures n <= |s| && (n < |s| ==> !IsSpace(s[n]))
    ensures forall i :: 0 <= i < n ==> IsSpace(s[i])
  {
    if s != [] && IsSpace(s[0]) then 1 + LeadingSpace(s[1..]) else 0
  }

  /** The number of whitespace characters `s` ends with. */
  function TrailingSpace(s: string): (n: nat)
    ensures n <= |s| && (n < |s| ==> !IsSpace(s[|s| - 1 - n]))
    ensures forall i :: |s| - n <= i < |s| ==> IsSpace(s[i])
  {
    if s != [] && IsSpace(s[|s| - 1]) then 1 + TrailingSpace(s[..|s| - 1]) else 0
  }

  /** `s.lstrip()`: the longest whitespace prefix removed. */
  function TrimStart(s: string): (r: string)
    ensures |r| <= |s| && r == s[|s| - |r|..]
    ensures AllSpace(s[..|s| - |r|])
    ensures r == [] || !IsSpace(r[0])
  {
    s[LeadingSpace(s)..]
  }

  /** `s.rstrip()`: the longest whitespace suffix removed. */
  function TrimEnd(s: string): (r: string)
    ensures |r| <= |s| && r == s[..|r|]
    ensures AllSpace(s[|r|..])
    ensures r == [] || !IsSpace(r[|r| - 1])
  {
    s[..|s| - TrailingSpace(s)]
  }

  /**
   * `str.strip()`: the result is a slice of the input, everything before and
   * after it is whitespace, and it neither starts nor ends with whitespace.
   */
  function Strip(s: string): (r: string)
    ensures |r| <= |s|
    ensures var lo := LeadingSpace(s);
      lo + |r| <= |s| && r == s[lo..lo + |r|] && AllSpace(s[..lo]) && AllSpace(s[lo + |r|..])
    ensures r == [] || (!IsSpace(r[0]) && !IsSpace(r[|r| - 1]))
  {
    var lo := LeadingSpace(s);
    var r := TrimEnd(s[lo..]);
    StripPieces(s, lo, r);
    r
  }

  /**
   * The pieces `strip` is made of: a whitespace prefix, then the part of the
   * rest that `rstrip` keeps, then a whitespace suffix.
   */
  lemma StripPieces(s: string, lo: nat, r: string)
    requires lo <= |s| && (lo < |s| ==> !IsSpace(s[lo]))
    requires forall i :: 0 <= i < lo ==> IsSpace(s[i])
    requires |r| <= |s| - lo && r == s[lo..][..|r|] && AllSpace(s[lo..][|r|..])
    requires r == [] || !IsSpace(r[|r| - 1])
    ensures lo + |r| <= |s| && r == s[lo..lo + |r|] && AllSpace(s[..lo]) && AllSpace(s[lo + |r|..])
    ensures r == [] || (!IsSpace(r[0]) && !IsSpace(r[|r| - 1]))
  {
    assert s[lo..][|r|..] == s[lo + |r|..];
    if r != [] {
      assert r[0] == s[lo];
    }
  }

  /** Whitespace in front of a text adds to its leading whitespace. */
  lemma {:induction false} LeadingSpacePadding(w: string, t: string)
    requires AllSpace(w)
    ensures LeadingSpace(w + t) == |w| + LeadingSpace(t)
  {
    if w != [] {
      assert (w + t)[0] == w[0];
      assert (w + t)[1..] == w[1..] + t;
      assert AllSpace(w[1..]) by {
        forall i | 0 <= i < |w| - 1 ensures IsSpace(w[1..][i]) {
          assert w[1..][i] == w[i + 1];
        }
      }
      LeadingSpacePadding(w[1..], t);
    } else {
      assert w + t == t;
    }
  }

  /** Whitespace after a text adds to its trailing whitespace. */
  lemma {:induction false} TrailingSpacePadding(t: string, w: string)
    requires AllSpace(w)
    ensures TrailingSpace(t + w) == |w| + TrailingSpace(t)
  {
    if w != [] {
      var w0 := w[..|w| - 1];
      assert (t + w)[|t + w| - 1] == w[|w| - 1];
      assert (t + w)[..|t + w| - 1] == t + w0;
      assert AllSpace(w0) by {
        forall i | 0 <= i < |w0| ensures IsSpace(w0[i]) {
          assert w0[i] == w[i];
        }
      }
      TrailingSpacePadding(t, w0);
    } else {
      assert t + w == t;
    }
  }

  /** Leading whitespace that stops inside a text is not changed by what follows the text. */
  lemma {:induction false} LeadingSpaceExtend(t: string, x: string)
    requires LeadingSpace(t) < |t|
    ensures LeadingSpace(t + x) == LeadingSpace(t)
  {
    assert (t + x)[0] == t[0];
    if IsSpace(t[0]) {
      assert (t + x)[1..] == t[1..] + x;
      LeadingSpaceExtend(t[1..], x);
    }
  }

  /** Whitespace before a text is dropped by `lstrip`. */
  lemma TrimStartPadding(w: string, t: string)
    requires AllSpace(w)
    ensures TrimStart(w + t) == TrimStart(t)
  {
    LeadingSpacePadding(w, t);
    assert (w + t)[|w| + LeadingSpace(t)..] == t[LeadingSpace(t)..];
  }

  /** Whitespace after a text is dropped by `rstrip`. */
  lemma TrimEndPadding(t: string, w: string)
    requires AllSpace(w)
    ensures TrimEnd(t + w) == TrimEnd(t)
  {
    TrailingSpacePadding(t, w);
    assert (t + w)[..|t| - TrailingSpace(t)] == t[..|t| - TrailingSpace(t)];
  }

  /** `lstrip` of a text followed by whitespace. */
  lemma TrimStartThenSpace(t: string, w: string)
    requires AllSpace(w)
    ensures TrimStart(t) != [] ==> TrimStart(t + w) == TrimStart(t) + w
    ensures TrimStart(t) == [] ==> TrimStart(t + w) == []
  {
    var n := LeadingSpace(t);
    if n < |t| {
      LeadingSpaceExtend(t, w);
      assert (t + w)[n..] == t[n..] + w;
    } else {
      assert AllSpace(t);
      LeadingSpacePadding(t, w);
      assert LeadingSpace(w) == |w| by {
        assert w + [] == w;
        LeadingSpacePadding(w, []);
      }
    }
  }

  /** Whitespace around a text does not change what `strip` gives. */
  lemma StripPadding(w: string, t: string, w': string)
    requires AllSpace(w) && AllSpace(w')
    ensures Strip(w + t + w') == Strip(t)
  {
    assert TrimStart(w + t + w') == TrimStart(t + w') by {
      assert w + t + w' == w + (t + w');
      TrimStartPadding(w, t + w');
    }
    assert TrimEnd(TrimStart(t + w')) == TrimEnd(TrimStart(t)) by {
      TrimStartThenSpace(t, w');
      if TrimStart(t) != [] {
        TrimEndPadding(TrimStart(t), w');
      }
    }
  }

  /** Text that neither starts nor ends with whitespace is left as it is. */
  lemma StripKeeps(s: string)
    requires s == [] || (!IsSpace(s[0]) && !IsSpace(s[|s| - 1]))
    ensures Strip(s) == s
  {
  }

  function Count(s: string, c: char): nat {
    if s == [] then 0 else (if s[0] == c then 1 else 0) + Count(s[1..], c)
  }

  /** `s.split(sep)`: the pieces between separators, empty pieces included. */
  function Split(s: string, sep: char): (parts: seq<string>)
    ensures |parts| == Count(s, sep) + 1
    ensures forall i :: 0 <= i < |parts| ==> sep !in parts[i]
  {
    if s == [] then [[]]
    else
      var rest := Split(s[1..], sep);
      if s[0] == sep then [[]] + rest
      else [[s[0]] + rest[0]] + rest[1..]
  }

  /** `sep.join(parts)`, the inverse of `Split`. */
  function Join(parts: seq<string>, sep: char): string
    requires |parts| >= 1
  {
    if |parts| == 1 then parts[0] else parts[0] + [sep] + Join(parts[1..], sep)
  }

  lemma {:induction false} JoinSplit(s: string, sep: char)
    ensures Join(Split(s, sep), sep) == s
  {
    if s != [] {
      var rest := Split(s[1..], sep);
      JoinSplit(s[1..], sep);
      if s[0] == sep {
        assert ([[]] + rest)[1..] == rest;
      } else if |rest| > 1 {
        var parts := [[s[0]] + rest[0]] + rest[1..];
        assert parts[1..] == rest[1..];
        assert Join(rest, sep) == rest[0] + [sep] + Join(rest[1..], sep);
      }
    }
  }

  lemma {:induction false} SplitNone(s: string, sep: char)
    requires sep !in s
    ensures Split(s, sep) == [s]
  {
    if s != [] {
      assert s[0] in s;
      assert forall c :: c in s[1..] ==> c in s;
      SplitNone(s[1..], sep);
      assert s[0] != sep;
      assert [s[0]] + s[1..] == s;
    }
  }

  /** Text with exactly one separator splits into the two sides of it. */
  lemma {:induction false} SplitPair(a: string, b: string, sep: char)
    requires sep !in a && sep !in b
    ensures Split(a + [sep] + b, sep) == [a, b]
  {
    var s := a + [sep] + b;
    if a == [] {
      assert s[1..] == b;
      SplitNone(b, sep);
    } else {
      assert a[0] in a;
      assert forall c :: c in a[1..] ==> c in a;
      assert s[1..] == a[1..] + [sep] + b;
      SplitPair(a[1..], b, sep);
      assert [a[0]] + a[1..] == a;
    }
  }
}
