/** The string operations of Python's `str` that the modelled code relies on:
    `strip`, `endswith`, `in`, `split`, `replace`, `join`, `isdigit`, `lower`, `int()` and `str()`
    of a natural number, and the last component of a path. Whitespace is the ASCII whitespace Python's `str` recognises,
    the four information separators `\x1c`-`\x1f` included. */
module Text {
  import opened Wrappers

  predicate IsSpace(c: char)
  {
    c == ' ' || c == '\t' || c == '\n' || c == '\r' || c as int == 0x0B || c as int == 0x0C
    || 0x1C <= c as int <= 0x1F
  }

  predicate NoSpace(s: string)
  {
    forall i :: 0 <= i < |s| ==> !IsSpace(s[i])
  }

  /** `str.lstrip()`: drop leading whitespace. */
  function LStrip(s: string): (r: string)
    ensures |r| <= |s| && r == s[|s| - |r|..]
    ensures r == [] || !IsSpace(r[0])
    ensures forall i :: 0 <= i < |s| - |r| ==> IsSpace(s[i])
    decreases |s|
  {
    if |s| > 0 && IsSpace(s[0]) then LStrip(s[1..]) else s
  }

  /** `str.rstrip()`: drop trailing whitespace. */
  function RStrip(s: string): (r: string)
    ensures |r| <= |s| && r == s[..|r|]
    ensures r == [] || !IsSpace(r[|r| - 1])
    ensures forall i :: |r| <= i < |s| ==> IsSpace(s[i])
    decreases |s|
  {
    if |s| > 0 && IsSpace(s[|s| - 1]) then RStrip(s[..|s| - 1]) else s
  }

  /** `str.strip()`. */
  function Strip(s: string): string
  {
    RStrip(LStrip(s))
  }

  /** The string is empty or all whitespace. */
  predicate IsBlank(s: string)
  {
    forall i :: 0 <= i < |s| ==> IsSpace(s[i])
  }

  /** Neither starts nor ends with whitespace. */
  predicate Trimmed(s: string)
  {
    s == [] || (!IsSpace(s[0]) && !IsSpace(s[|s| - 1]))
  }

  /** `not s.strip()` holds exactly for the blank strings. */
  lemma BlankIffStripEmpty(s: string)
    ensures IsBlank(s) <==> Strip(s) == []
  {
    var l := LStrip(s);
    if Strip(s) == [] {
      assert l == [];
    } else {
      assert l != [] && !IsSpace(l[0]);
      assert s[|s| - |l|] == l[0];
    }
  }

  /** Stripping yields a trimmed string, and a trimmed string is its own strip. */
  lemma StripTrimmed(s: string)
    ensures Trimmed(Strip(s))
    ensures Trimmed(s) ==> Strip(s) == s
  {
    var l := LStrip(s);
    var r := RStrip(l);
    if r != [] {
      assert r[0] == l[0];
    }
  }

  lemma StripIdempotent(s: string)
    ensures Strip(Strip(s)) == Strip(s)
  {
    StripTrimmed(s);
    StripTrimmed(Strip(s));
  }

  /** `s.endswith(suffix)`. */
  predicate EndsWith(s: string, suffix: string)
  {
    |suffix| <= |s| && s[|s| - |suffix|..] == suffix
  }

  predicate OccursAt(s: string, pat: string, i: nat)
  {
    i + |pat| <= |s| && s[i..i + |pat|] == pat
  }

  /** The first occurrence of `pat` in `s` at or after `from`. */
  function IndexFrom(s: string, pat: string, from: nat): (r: Option<nat>)
    ensures r.Some? ==> from <= r.value && OccursAt(s, pat, r.value)
    ensures r.Some? ==> forall j :: from <= j < r.value ==> !OccursAt(s, pat, j)
    ensures r.None? ==> forall j :: from <= j ==> !OccursAt(s, pat, j)
    decreases |s| - from
  {
    if from + |pat| > |s| then None
    else if OccursAt(s, pat, from) then Some(from)
    else IndexFrom(s, pat, from + 1)
  }

  /** `s.find(pat)`, with `None` for -1. */
  function IndexOf(s: string, pat: string): Option<nat>
  {
    IndexFrom(s, pat, 0)
  }

  /** `pat in s`. */
  predicate Contains(s: string, pat: string)
  {
    IndexOf(s, pat).Some?
  }

  lemma ContainsIff(s: string, pat: string)
    ensures Contains(s, pat) <==> exists i: nat :: OccursAt(s, pat, i)
  {
  }

  /** `s.split(pat)[0]` for a non-empty `pat`: the text before the first occurrence, or all of `s`. */
  function Before(s: string, pat: string): (r: string)
    requires |pat| > 0
    ensures |r| <= |s| && r == s[..|r|]
    ensures !Contains(r, pat)
    ensures Contains(s, pat) ==> OccursAt(s, pat, |r|)
    ensures forall j :: 0 <= j < |r| ==> !OccursAt(s, pat, j)
    ensures !Contains(s, pat) ==> r == s
  {
    match IndexOf(s, pat)
    case None => s
    case Some(i) =>
      var r := s[..i];
      assert forall j: nat :: OccursAt(r, pat, j) ==> OccursAt(s, pat, j) by {
        forall j: nat | OccursAt(r, pat, j) ensures OccursAt(s, pat, j) {
          assert s[j..j + |pat|] == r[j..j + |pat|];
        }
      }
      r
  }

  /** `s.replace(pat, '')` for a non-empty `pat`: removes the non-overlapping occurrences, scanning left to right. */
  function RemoveAll(s: string, pat: string): (r: string)
    requires |pat| > 0
    ensures |r| <= |s|
    decreases |s|
  {
    if |s| < |pat| then s
    else if s[..|pat|] == pat then RemoveAll(s[|pat|..], pat)
    else [s[0]] + RemoveAll(s[1..], pat)
  }

  /** Removing a string that does not occur changes nothing. */
  lemma {:induction false} RemoveAllAbsent(s: string, pat: string)
    requires |pat| > 0 && !Contains(s, pat)
    ensures RemoveAll(s, pat) == s
    decreases |s|
  {
    if |s| >= |pat| {
      assert !OccursAt(s, pat, 0);
      assert s[..|pat|] != pat;
      forall j: nat | OccursAt(s[1..], pat, j) ensures OccursAt(s, pat, j + 1) {
        assert s[j + 1..j + 1 + |pat|] == s[1..][j..j + |pat|];
      }
      RemoveAllAbsent(s[1..], pat);
    }
  }

  /** A removal that found something shortens the string by at least the length of `pat`. */
  lemma {:induction false} RemoveAllShrinks(s: string, pat: string)
    requires |pat| > 0 && Contains(s, pat)
    ensures |RemoveAll(s, pat)| <= |s| - |pat|
    decreases |s|
  {
    var i := IndexOf(s, pat).value;
    if s[..|pat|] != pat {
      assert !OccursAt(s, pat, 0);
      assert s[1..][i - 1..i - 1 + |pat|] == s[i..i + |pat|];
      assert OccursAt(s[1..], pat, i - 1);
      RemoveAllShrinks(s[1..], pat);
    }
  }

  /** Every occurrence goes, not only the first: when no occurrence starts inside `a`, the
      one right after `a` is removed and the scan carries on after it, so applying this again
      to `b` removes each later occurrence in turn. */
  lemma {:induction false} RemoveAllRemovesEveryOccurrence(a: string, pat: string, b: string)
    requires |pat| > 0 && !Contains(a + pat[..|pat| - 1], pat)
    ensures RemoveAll(a + pat + b, pat) == a + RemoveAll(b, pat)
    decreases |a|
  {
    if |a| == 0 {
      assert a + pat + b == pat + b;
      RemoveAllAtStart(pat, b);
    } else {
      var s, rest := a + pat + b, RemoveAll(b, pat);
      assert RemoveAll(a[1..] + pat + b, pat) == a[1..] + rest by {
        NoOccurrenceAfterFirst(a, pat);
        RemoveAllRemovesEveryOccurrence(a[1..], pat, b);
      }
      assert RemoveAll(s, pat) == [a[0]] + RemoveAll(a[1..] + pat + b, pat) by {
        NoOccurrenceAtStart(a, pat, b);
        assert s[1..] == a[1..] + pat + b;
        RemoveAllKeepsFirst(s, pat);
      }
      assert [a[0]] + (a[1..] + rest) == a + rest;
    }
  }

  lemma RemoveAllAtStart(pat: string, b: string)
    requires |pat| > 0
    ensures RemoveAll(pat + b, pat) == RemoveAll(b, pat)
  {
    assert (pat + b)[..|pat|] == pat && (pat + b)[|pat|..] == b;
  }

  lemma RemoveAllKeepsFirst(s: string, pat: string)
    requires |pat| > 0 && |s| >= |pat| && s[..|pat|] != pat
    ensures RemoveAll(s, pat) == [s[0]] + RemoveAll(s[1..], pat)
  {
  }

  lemma NoOccurrenceAtStart(a: string, pat: string, b: string)
    requires |pat| > 0 && |a| > 0 && !Contains(a + pat[..|pat| - 1], pat)
    ensures (a + pat + b)[..|pat|] != pat
  {
    var t := a + pat[..|pat| - 1];
    ContainsIff(t, pat);
    assert !OccursAt(t, pat, 0);
    assert (a + pat + b)[..|pat|] == t[..|pat|];
  }

  lemma NoOccurrenceAfterFirst(a: string, pat: string)
    requires |pat| > 0 && |a| > 0 && !Contains(a + pat[..|pat| - 1], pat)
    ensures !Contains(a[1..] + pat[..|pat| - 1], pat)
  {
    var t := a + pat[..|pat| - 1];
    var t1 := a[1..] + pat[..|pat| - 1];
    assert t1 == t[1..];
    ContainsIff(t, pat);
    forall j: nat | OccursAt(t1, pat, j) ensures OccursAt(t, pat, j + 1) {
      assert t[j + 1..j + 1 + |pat|] == t1[j..j + |pat|];
    }
    ContainsIff(t1, pat);
  }

  /** `sep.join(xs)`. */
  function Join(sep: string, xs: seq<string>): string
    decreases |xs|
  {
    if |xs| == 0 then ""
    else if |xs| == 1 then xs[0]
    else xs[0] + sep + Join(sep, xs[1..])
  }

  /** `s.split(c)` for a one-character separator: always at least one field, none holding `c`. */
  function Split(s: string, c: char): (r: seq<string>)
    ensures |r| >= 1
    ensures forall i :: 0 <= i < |r| ==> c !in r[i]
    decreases |s|
  {
    if |s| == 0 then [""]
    else
      var rest := Split(s[1..], c);
      if s[0] == c then [""] + rest else [[s[0]] + rest[0]] + rest[1..]
  }

  lemma {:induction false} SplitNoSeparator(s: string, c: char)
    requires c !in s
    ensures Split(s, c) == [s]
    decreases |s|
  {
    if |s| > 0 {
      SplitNoSeparator(s[1..], c);
      assert [s[0]] + s[1..] == s;
    }
  }

  lemma {:induction false} SplitField(x: string, c: char, rest: string)
    requires c !in x
    ensures Split(x + [c] + rest, c) == [x] + Split(rest, c)
    decreases |x|
  {
    if |x| == 0 {
      assert x + [c] + rest == [c] + rest;
      assert ([c] + rest)[1..] == rest;
    } else {
      assert (x + [c] + rest)[1..] == x[1..] + [c] + rest;
      SplitField(x[1..], c, rest);
      assert [x[0]] + x[1..] == x;
    }
  }

  /** Splitting a joined line on its separator gives back the fields, when no field holds the separator. */
  lemma {:induction false} SplitJoin(xs: seq<string>, c: char)
    requires |xs| >= 1
    requires forall i :: 0 <= i < |xs| ==> c !in xs[i]
    ensures Split(Join([c], xs), c) == xs
    decreases |xs|
  {
    if |xs| == 1 {
      SplitNoSeparator(xs[0], c);
    } else {
      SplitJoin(xs[1..], c);
      SplitField(xs[0], c, Join([c], xs[1..]));
      assert [xs[0]] + xs[1..] == xs;
    }
  }

  /** The longest prefix of `s` without whitespace. */
  function TakeWord(s: string): (w: string)
    ensures |w| <= |s| && w == s[..|w|]
    ensures NoSpace(w)
    ensures |w| == |s| || IsSpace(s[|w|])
    decreases |s|
  {
    if |s| == 0 || IsSpace(s[0]) then "" else [s[0]] + TakeWord(s[1..])
  }

  /** `s.split(maxsplit=1)`: the first word and, if anything follows, the rest with its leading whitespace dropped. */
  function SplitFirstWord(s: string): (parts: seq<string>)
    ensures |parts| <= 2
    ensures parts == [] <==> LStrip(s) == []
    ensures |parts| >= 1 ==> parts[0] != "" && NoSpace(parts[0])
    ensures |parts| == 2 ==> parts[1] != "" && !IsSpace(parts[1][0])
  {
    var t := LStrip(s);
    if t == [] then []
    else
      var w := TakeWord(t);
      assert |w| > 0 by {
        assert |w| == |t| || IsSpace(t[|w|]);
      }
      var rest := LStrip(t[|w|..]);
      if rest == [] then [w] else [w, rest]
  }

  /** The first word of a word followed by whitespace (or nothing) is that word. */
  lemma {:induction false} TakeWordPrefix(w: string, rest: string)
    requires NoSpace(w)
    requires rest == [] || IsSpace(rest[0])
    ensures TakeWord(w + rest) == w
    decreases |w|
  {
    if |w| > 0 {
      assert (w + rest)[1..] == w[1..] + rest;
      TakeWordPrefix(w[1..], rest);
    } else {
      assert w + rest == rest;
    }
  }

  /** `(w + " " + r).split(maxsplit=1)` is `[w, r]` for a word `w` and a tail `r` that starts with no space. */
  lemma SplitFirstWordPair(w: string, r: string)
    requires w != "" && NoSpace(w)
    requires r != "" && !IsSpace(r[0])
    ensures SplitFirstWord(w + " " + r) == [w, r]
  {
    var s := w + " " + r;
    assert LStrip(s) == s;
    TakeWordPrefix(w, " " + r);
    assert w + (" " + r) == s;
    assert s[|w|..] == " " + r;
    assert LStrip(" " + r) == LStrip(r) == r;
  }

  predicate IsDigit(c: char)
  {
    '0' <= c <= '9'
  }

  /** `s.isdigit()` over ASCII digits: non-empty and all digits. */
  predicate IsDigits(s: string)
  {
    |s| > 0 && forall i :: 0 <= i < |s| ==> IsDigit(s[i])
  }

  function DigitChar(d: nat): (c: char)
    requires d < 10
    ensures IsDigit(c) && c as int - '0' as int == d
  {
    ('0' as int + d) as char
  }

  /** `str(n)` for a natural number. */
  function NatToString(n: nat): (s: string)
    ensures IsDigits(s)
    decreases n
  {
    if n < 10 then [DigitChar(n)] else NatToString(n / 10) + [DigitChar(n % 10)]
  }

  /** `int(s)` for a string of decimal digits (leading zeros allowed). */
  function ParseNat(s: string): nat
    requires forall i :: 0 <= i < |s| ==> IsDigit(s[i])
    decreases |s|
  {
    if |s| == 0 then 0
    else
      assert IsDigit(s[|s| - 1]);
      10 * ParseNat(s[..|s| - 1]) + (s[|s| - 1] as int - '0' as int)
  }

  lemma {:induction false} ParseNatToString(n: nat)
    ensures ParseNat(NatToString(n)) == n
    decreases n
  {
    if n >= 10 {
      var s := NatToString(n);
      assert s[..|s| - 1] == NatToString(n / 10);
      ParseNatToString(n / 10);
    }
  }

  /** ASCII `str.lower()`. */
  function Lower(s: string): (r: string)
    ensures |r| == |s|
    ensures forall i :: 0 <= i < |s| ==> ('A' <= s[i] <= 'Z' ==> r[i] as int == s[i] as int + 32)
    ensures forall i :: 0 <= i < |s| ==> (!('A' <= s[i] <= 'Z') ==> r[i] == s[i])
  {
    seq(|s|, i requires 0 <= i < |s| => if 'A' <= s[i] <= 'Z' then (s[i] as int + 32) as char else s[i])
  }

  /** `Path(p).name`: the text after the last `/`. */
  function Basename(p: string): (b: string)
    ensures |b| <= |p| && b == p[|p| - |b|..]
    ensures '/' !in b
    ensures |b| < |p| ==> p[|p| - |b| - 1] == '/'
    decreases |p|
  {
    if p == "" || p[|p| - 1] == '/' then "" else Basename(p[..|p| - 1]) + [p[|p| - 1]]
  }

  /** `Path(p).parent`: the text before the last `/`, `.` when there is none, `/` for a root entry. */
  function Parent(p: string): string
  {
    var b := Basename(p);
    if |b| == |p| then "."
    else if |b| + 1 == |p| then "/"
    else p[..|p| - |b| - 1]
  }
}
