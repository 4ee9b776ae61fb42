/**
 The string helpers the pipeline relies on: Python's `str.strip()`,
 `str.split()` (no separator), `str.lower()` and the decimal rendering of a
 count inside an f-string.  Only ASCII is modelled: whitespace is the set of
 ASCII characters Python's `str.isspace()` accepts, and lower-casing maps
 'A'..'Z' to 'a'..'z'.  Stripping and splitting locate field boundaries by
 scanning indices and cut the results out of the string as slices.
 */
module Text {

  /** ASCII whitespace as Python sees it: space, \t \n \v \f \r and the
      four separators \x1c..\x1f. */
  predicate IsSpace(c: char)
  {
    c == ' ' || (9 <= c as int <= 13) || (28 <= c as int <= 31)
  }

  predicate NoSpace(s: string)
  {
    forall i :: 0 <= i < |s| ==> !IsSpace(s[i])
  }

  /** A field of `str.split()`: non-empty and free of whitespace. */
  predicate IsWord(w: string)
  {
    w != [] && NoSpace(w)
  }

  /** The first index at or after `i` that does not hold whitespace. */
  function SkipSpace(s: string, i: nat): (j: nat)
    requires i <= |s|
    ensures i <= j <= |s|
    ensures forall k :: i <= k < j ==> IsSpace(s[k])
    ensures j == |s| || !IsSpace(s[j])
    decreases |s| - i
  {
    if i < |s| && IsSpace(s[i]) then SkipSpace(s, i + 1) else i
  }

  /** The first index at or after `i` that holds whitespace. */
  function SkipWord(s: string, i: nat): (j: nat)
    requires i <= |s|
    ensures i <= j <= |s|
    ensures forall k :: i <= k < j ==> !IsSpace(s[k])
    ensures j == |s| || IsSpace(s[j])
    decreases |s| - i
  {
    if i < |s| && !IsSpace(s[i]) then SkipWord(s, i + 1) else i
  }

  /** Where `s[lo..j]` ends once its trailing whitespace is dropped. */
  function TrimEnd(s: string, lo: nat, j: nat): (e: nat)
    requires lo <= j <= |s|
    ensures lo <= e <= j
    ensures forall k :: e <= k < j ==> IsSpace(s[k])
    ensures e == lo || !IsSpace(s[e - 1])
  {
    if j > lo && IsSpace(s[j - 1]) then TrimEnd(s, lo, j - 1) else j
  }

  /** `s.strip()`: the slice of `s` between its leading and its trailing
      whitespace; it neither starts nor ends with whitespace. */
  function Strip(s: string): (r: string)
    ensures r == [] || (!IsSpace(r[0]) && !IsSpace(r[|r| - 1]))
    ensures |r| <= |s|
  {
    var a := SkipSpace(s, 0);
    s[a..TrimEnd(s, a, |s|)]
  }

  /** Stripping a string that neither starts nor ends with whitespace leaves
      it as it is; in particular stripping is idempotent. */
  lemma StripFramed(s: string)
    requires s == [] || (!IsSpace(s[0]) && !IsSpace(s[|s| - 1]))
    ensures Strip(s) == s
  {
    assert SkipSpace(s, 0) == 0;
    assert TrimEnd(s, 0, |s|) == |s|;
  }

  /** Stripping removes whitespace and nothing else: the result is `s` less
      a whitespace prefix and a whitespace suffix. */
  lemma StripRemovesSpace(s: string)
    ensures exists a, e ::
              && 0 <= a <= e <= |s| && Strip(s) == s[a..e]
              && (forall k :: 0 <= k < a ==> IsSpace(s[k]))
              && (forall k :: e <= k < |s| ==> IsSpace(s[k]))
  {
    var a := SkipSpace(s, 0);
    var e := TrimEnd(s, a, |s|);
    assert Strip(s) == s[a..e];
  }

  /** Trailing whitespace, such as a line terminator, is stripped away. */
  lemma StripTrailing(s: string, pad: string)
    requires s == [] || (!IsSpace(s[0]) && !IsSpace(s[|s| - 1]))
    requires forall k :: 0 <= k < |pad| ==> IsSpace(pad[k])
    ensures Strip(s + pad) == s
  {
    var t := s + pad;
    assert forall k :: |s| <= k < |t| ==> IsSpace(t[k]) by {
      forall k | |s| <= k < |t| ensures IsSpace(t[k]) {
        assert t[k] == pad[k - |s|];
      }
    }
    if s == [] {
      assert t == pad;
      assert SkipSpace(t, 0) == |t|;
    } else {
      assert t[0] == s[0] && t[|s| - 1] == s[|s| - 1];
      assert SkipSpace(t, 0) == 0;
      assert TrimEnd(t, 0, |t|) == |s|;
      assert t[0..|s|] == s;
    }
  }

  lemma StripIdempotent(s: string)
    ensures Strip(Strip(s)) == Strip(s)
  {
    StripFramed(Strip(s));
  }

  /** `s.split()`: the maximal runs of non-whitespace characters of `s`,
      in order; leading and trailing whitespace yield no empty fields. */
  function Split(s: string): (r: seq<string>)
    ensures forall k :: 0 <= k < |r| ==> IsWord(r[k])
    decreases |s|
  {
    var a := SkipSpace(s, 0);
    if a == |s| then []
    else
      var b := SkipWord(s, a);
      [s[a..b]] + Split(s[b..])
  }

  /** `t` ends with `s`, which starts at index `d` of `t`. */
  predicate SuffixAt(t: string, d: nat, s: string)
  {
    |t| == d + |s| && forall k :: 0 <= k < |s| ==> t[d + k] == s[k]
  }

  lemma {:induction false} SkipSpaceShift(t: string, d: nat, s: string, i: nat)
    requires SuffixAt(t, d, s) && i <= |s|
    ensures SkipSpace(t, d + i) == d + SkipSpace(s, i)
    decreases |s| - i
  {
    if i < |s| && IsSpace(s[i]) {
      SkipSpaceShift(t, d, s, i + 1);
    }
  }

  lemma {:induction false} SkipWordShift(t: string, d: nat, s: string, i: nat)
    requires SuffixAt(t, d, s) && i <= |s|
    ensures SkipWord(t, d + i) == d + SkipWord(s, i)
    decreases |s| - i
  {
    if i < |s| && !IsSpace(s[i]) {
      SkipWordShift(t, d, s, i + 1);
    }
  }

  /** Leading whitespace does not change the fields. */
  lemma SplitSpaceFirst(c: char, rest: string)
    requires IsSpace(c)
    ensures Split([c] + rest) == Split(rest)
  {
    var t := [c] + rest;
    var a := SkipSpace(rest, 0);
    assert SkipSpace(t, 0) == 1 + a by {
      assert SuffixAt(t, 1, rest);
      SkipSpaceShift(t, 1, rest, 0);
      assert SkipSpace(t, 0) == SkipSpace(t, 1);
    }
    if a < |rest| {
      SplitSpaceFirstWord(t, rest, a);
    }
  }

  lemma SplitSpaceFirstWord(t: string, rest: string, a: nat)
    requires SuffixAt(t, 1, rest)
    requires a == SkipSpace(rest, 0) < |rest| && SkipSpace(t, 0) == 1 + a
    ensures Split(t) == Split(rest)
  {
    var b := SkipWord(rest, a);
    SkipWordShift(t, 1, rest, a);
    SliceShift(t, 1, rest, a, b);
    assert t[1 + b..] == rest[b..];
    SplitStep(t);
    SplitStep(rest);
  }

  /** One unfolding of `Split`, stated once so callers need not unfold it. */
  lemma SplitStep(s: string)
    requires SkipSpace(s, 0) < |s|
    ensures Split(s) == [s[SkipSpace(s, 0)..SkipWord(s, SkipSpace(s, 0))]] + Split(s[SkipWord(s, SkipSpace(s, 0))..])
  {
  }

  lemma SliceShift(t: string, d: nat, s: string, a: nat, b: nat)
    requires SuffixAt(t, d, s) && a <= b <= |s|
    ensures t[d + a..d + b] == s[a..b]
  {
    forall k | 0 <= k < b - a
      ensures t[d + a..d + b][k] == s[a..b][k]
    {
      assert t[d + (a + k)] == s[a + k];
    }
  }

  /** A word followed by whitespace (or nothing) is the first field. */
  lemma SplitWordFirst(w: string, rest: string)
    requires IsWord(w)
    requires rest == [] || IsSpace(rest[0])
    ensures Split(w + rest) == [w] + Split(rest)
  {
    var s := w + rest;
    assert s[0] == w[0];
    assert SkipSpace(s, 0) == 0;
    assert forall k :: 0 <= k < |w| ==> !IsSpace(s[k]) by {
      forall k | 0 <= k < |w| ensures !IsSpace(s[k]) {
        assert s[k] == w[k];
      }
    }
    assert |w| == |s| || IsSpace(s[|w|]);
    assert SkipWord(s, 0) == |w|;
    assert s[0..|w|] == w;
    assert s[|w|..] == rest;
  }

  predicate AllSpace(s: string)
  {
    forall k :: 0 <= k < |s| ==> IsSpace(s[k])
  }

  /** Whitespace before the text yields no fields. */
  lemma {:induction false} SplitSpacePrefix(g: string, s: string)
    requires AllSpace(g)
    ensures Split(g + s) == Split(s)
    decreases |g|
  {
    if g != [] {
      assert g + s == [g[0]] + (g[1..] + s);
      assert AllSpace(g[1..]) by {
        forall k | 0 <= k < |g| - 1 ensures IsSpace(g[1..][k]) {
          assert g[1..][k] == g[k + 1];
        }
      }
      SplitSpaceFirst(g[0], g[1..] + s);
      SplitSpacePrefix(g[1..], s);
    } else {
      assert g + s == s;
    }
  }

  /** Whitespace after the text yields no fields. */
  lemma {:induction false} SplitSpaceSuffix(t: string, g: string)
    requires AllSpace(g)
    ensures Split(t + g) == Split(t)
    decreases |t|
  {
    var a := SkipSpace(t, 0);
    SplitSkipLeading(t, g);
    assert Split(t) == Split(t[a..]) by {
      SplitSkipLeading(t, []);
      assert t + [] == t && t[a..] + [] == t[a..];
    }
    if a == |t| {
      assert t[a..] + g == g + [];
      SplitSpacePrefix(g, []);
    } else {
      SplitWordThen(t, g, a);
      SplitSpaceSuffix(t[SkipWord(t, a)..], g);
    }
  }

  /** Leading whitespace of `t` yields no fields, whatever follows `t`. */
  lemma SplitSkipLeading(t: string, g: string)
    ensures Split(t + g) == Split(t[SkipSpace(t, 0)..] + g)
  {
    var a := SkipSpace(t, 0);
    assert AllSpace(t[..a]);
    assert t + g == t[..a] + (t[a..] + g);
    SplitSpacePrefix(t[..a], t[a..] + g);
  }

  /** The first field of `t[a..]`, followed by whitespace `g` or not. */
  lemma SplitWordThen(t: string, g: string, a: nat)
    requires AllSpace(g)
    requires a < |t| && !IsSpace(t[a])
    ensures var b := SkipWord(t, a);
      && Split(t[a..]) == [t[a..b]] + Split(t[b..])
      && Split(t[a..] + g) == [t[a..b]] + Split(t[b..] + g)
  {
    var b := SkipWord(t, a);
    var w, r := t[a..b], t[b..];
    assert IsWord(w) by {
      assert w[0] == t[a];
      forall k | 0 <= k < |w| ensures !IsSpace(w[k]) {
        assert w[k] == t[a + k];
      }
    }
    assert r + g == [] || IsSpace((r + g)[0]) by {
      if r == [] {
        assert r + g == g;
      }
    }
    assert r + [] == r;
    assert r == [] || IsSpace(r[0]);
    assert t[a..] == w + r;
    SplitWordFirst(w, r);
    assert Split(t[a..]) == [w] + Split(r);
    SplitWordPad(t[a..] + g, w, r, g);
  }

  lemma SplitWordPad(s: string, w: string, r: string, g: string)
    requires IsWord(w) && (r + g == [] || IsSpace((r + g)[0]))
    requires s == w + r + g
    ensures Split(s) == [w] + Split(r + g)
  {
    assert s == w + (r + g);
    SplitWordFirst(w, r + g);
  }

  /** Stripping does not change the fields. */
  lemma SplitStrip(s: string)
    ensures Split(Strip(s)) == Split(s)
  {
    var a := SkipSpace(s, 0);
    var e := TrimEnd(s, a, |s|);
    assert AllSpace(s[..a]) by {
      forall k | 0 <= k < a ensures IsSpace(s[..a][k]) {
        assert s[..a][k] == s[k];
      }
    }
    assert AllSpace(s[e..]) by {
      forall k | 0 <= k < |s| - e ensures IsSpace(s[e..][k]) {
        assert s[e..][k] == s[e + k];
      }
    }
    assert s == s[..a] + (s[a..e] + s[e..]);
    SplitSpacePrefix(s[..a], s[a..e] + s[e..]);
    SplitSpaceSuffix(s[a..e], s[e..]);
  }

  /** The words with the given runs of whitespace around and between them:
      `gaps[0] + words[0] + gaps[1] + ... + words[n - 1] + gaps[n]`. */
  function Interleave(gaps: seq<string>, words: seq<string>): (s: string)
    requires |gaps| == |words| + 1
    ensures words == [] ==> s == gaps[0]
    ensures words != [] ==> s == gaps[0] + words[0] + Interleave(gaps[1..], words[1..])
    decreases words
  {
    if words == [] then gaps[0] else gaps[0] + words[0] + Interleave(gaps[1..], words[1..])
  }

  /** A layout of a line: every gap is whitespace, possibly empty at either
      end, and a gap between two words is not empty. */
  predicate Spaced(gaps: seq<string>, words: seq<string>)
  {
    && |gaps| == |words| + 1
    && (forall i :: 0 <= i < |words| ==> IsWord(words[i]))
    && (forall i :: 0 <= i < |gaps| ==> AllSpace(gaps[i]))
    && (forall i :: 0 < i < |words| ==> gaps[i] != [])
  }

  /** `split()` finds exactly the words of a layout, however long the runs
      of whitespace before, between and after them. */
  lemma {:induction false} SplitInterleave(gaps: seq<string>, words: seq<string>)
    requires Spaced(gaps, words)
    ensures Split(Interleave(gaps, words)) == words
    decreases words
  {
    if words == [] {
      assert gaps[0] + [] == gaps[0];
      SplitSpacePrefix(gaps[0], []);
    } else {
      SpacedTail(gaps, words);
      InterleaveFirst(gaps, words);
      SplitInterleave(gaps[1..], words[1..]);
    }
  }

  /** Dropping the first gap and word of a layout leaves a layout. */
  lemma SpacedTail(gaps: seq<string>, words: seq<string>)
    requires Spaced(gaps, words) && words != []
    ensures Spaced(gaps[1..], words[1..])
  {
    forall i | 0 <= i < |gaps| - 1 ensures AllSpace(gaps[1..][i]) {
      assert gaps[1..][i] == gaps[i + 1];
    }
  }

  /** The first word of a layout is its first field. */
  lemma InterleaveFirst(gaps: seq<string>, words: seq<string>)
    requires Spaced(gaps, words) && words != []
    ensures Split(Interleave(gaps, words)) == [words[0]] + Split(Interleave(gaps[1..], words[1..]))
  {
    var rest := Interleave(gaps[1..], words[1..]);
    assert rest == [] || IsSpace(rest[0]) by {
      if |words| > 1 {
        assert rest[0] == gaps[1][0];
      } else {
        assert rest == gaps[1];
      }
    }
    assert Interleave(gaps, words) == gaps[0] + (words[0] + rest);
    SplitSpacePrefix(gaps[0], words[0] + rest);
    SplitWordFirst(words[0], rest);
  }

  /** Every string is a layout of its own fields. */
  lemma {:induction false} SplitLayout(s: string)
    ensures exists gaps :: Spaced(gaps, Split(s)) && Interleave(gaps, Split(s)) == s
    decreases |s|
  {
    var a := SkipSpace(s, 0);
    if a == |s| {
      assert Spaced([s], Split(s));
    } else {
      var b := SkipWord(s, a);
      var g, w, r := s[..a], s[a..b], s[b..];
      SplitLayout(r);
      var gs :| Spaced(gs, Split(r)) && Interleave(gs, Split(r)) == r;
      FirstField(s, a);
      SplitStep(s);
      FirstGap(r, gs);
      LayoutCons(s, g, w, r, gs);
    }
  }

  /** A string whose first non-whitespace character is at `a` is that
      whitespace, its first field, and the rest, which is empty or starts
      with whitespace. */
  lemma FirstField(s: string, a: nat)
    requires a == SkipSpace(s, 0) < |s|
    ensures var b := SkipWord(s, a);
      && s == s[..a] + s[a..b] + s[b..]
      && AllSpace(s[..a]) && IsWord(s[a..b])
      && (s[b..] == [] || IsSpace(s[b..][0]))
  {
    var b := SkipWord(s, a);
    assert IsWord(s[a..b]) by {
      assert s[a..b][0] == s[a];
      forall k | 0 <= k < b - a ensures !IsSpace(s[a..b][k]) {
        assert s[a..b][k] == s[a + k];
      }
    }
    assert AllSpace(s[..a]) by {
      forall k | 0 <= k < a ensures IsSpace(s[..a][k]) {
        assert s[..a][k] == s[k];
      }
    }
    assert s == s[..a] + s[a..b] + s[b..];
  }

  /** Whitespace and a field before a laid-out rest make a layout of the
      whole string. */
  lemma LayoutCons(s: string, g: string, w: string, r: string, gs: seq<string>)
    requires s == g + w + r && AllSpace(g) && IsWord(w)
    requires Split(s) == [w] + Split(r)
    requires Spaced(gs, Split(r)) && Interleave(gs, Split(r)) == r
    requires Split(r) != [] ==> gs[0] != []
    ensures Spaced([g] + gs, Split(s)) && Interleave([g] + gs, Split(s)) == s
  {
    SpacedCons(g, gs, w, Split(r));
  }

  lemma SpacedCons(g: string, gs: seq<string>, w: string, ws: seq<string>)
    requires AllSpace(g) && IsWord(w) && Spaced(gs, ws)
    requires ws != [] ==> gs[0] != []
    ensures Spaced([g] + gs, [w] + ws)
    ensures Interleave([g] + gs, [w] + ws) == g + w + Interleave(gs, ws)
  {
    var gaps, words := [g] + gs, [w] + ws;
    assert gaps[1..] == gs && words[1..] == ws;
    forall i | 0 < i < |words| ensures gaps[i] != [] {
      assert gaps[i] == gs[i - 1];
    }
    forall i | 0 <= i < |gaps| ensures AllSpace(gaps[i]) {
      if i > 0 {
        assert gaps[i] == gs[i - 1];
      }
    }
    forall i | 0 <= i < |words| ensures IsWord(words[i]) {
      if i > 0 {
        assert words[i] == ws[i - 1];
      }
    }
  }

  /** In a layout of a string that is empty or starts with whitespace, the
      gap before the first word is not empty. */
  lemma FirstGap(r: string, gs: seq<string>)
    requires r == [] || IsSpace(r[0])
    requires Spaced(gs, Split(r)) && Interleave(gs, Split(r)) == r
    ensures Split(r) != [] ==> gs[0] != []
  {
    var ws := Split(r);
    if r == [] {
      assert ws == [];
    } else if ws != [] && gs[0] == [] {
      assert false;
    }
  }

  predicate IsUpper(c: char)
  {
    'A' <= c <= 'Z'
  }

  function LowerChar(c: char): (d: char)
    ensures !IsUpper(d)
  {
    if IsUpper(c) then (c as int + 32) as char else c
  }

  /** `s.lower()` on ASCII: upper-case letters become lower-case, every
      other character is kept. */
  function ToLower(s: string): (r: string)
    ensures |r| == |s|
    ensures forall i :: 0 <= i < |s| ==> !IsUpper(r[i])
    ensures forall i :: 0 <= i < |s| && !IsUpper(s[i]) ==> r[i] == s[i]
    ensures forall i :: 0 <= i < |s| && IsUpper(s[i]) ==> r[i] as int == s[i] as int + 32
  {
    if s == [] then [] else [LowerChar(s[0])] + ToLower(s[1..])
  }

  /** Lower-casing is idempotent, and a string with no upper-case letter is
      its own lower-case form. */
  lemma ToLowerNoUpper(s: string)
    requires forall i :: 0 <= i < |s| ==> !IsUpper(s[i])
    ensures ToLower(s) == s
  {
  }

  lemma ToLowerIdempotent(s: string)
    ensures ToLower(ToLower(s)) == ToLower(s)
  {
    ToLowerNoUpper(ToLower(s));
  }

  predicate IsDigit(c: char)
  {
    '0' <= c <= '9'
  }

  function DigitChar(d: nat): (c: char)
    requires d < 10
    ensures IsDigit(c) && c as int - '0' as int == d
  {
    ('0' as int + d) as char
  }

  /** The decimal text of `n`, as `str(n)` renders it: digits only, and no
      leading zero unless `n` is zero. */
  function NatToString(n: nat): (r: string)
    ensures r != []
    ensures forall i :: 0 <= i < |r| ==> IsDigit(r[i])
    ensures |r| > 1 ==> r[0] != '0'
    ensures r[0] == '0' ==> n == 0
  {
    if n < 10 then [DigitChar(n)] else NatToString(n / 10) + [DigitChar(n % 10)]
  }

  /** The value of a string of decimal digits. */
  function DigitsValue(s: string): int
    requires forall i :: 0 <= i < |s| ==> IsDigit(s[i])
  {
    if s == [] then 0
    else DigitsValue(s[..|s| - 1]) * 10 + (s[|s| - 1] as int - '0' as int)
  }

  /** Reading back the rendered count gives the count. */
  lemma {:induction false} NatToStringRoundTrip(n: nat)
    ensures DigitsValue(NatToString(n)) == n
  {
    var r := NatToString(n);
    if n >= 10 {
      NatToStringRoundTrip(n / 10);
      assert r[..|r| - 1] == NatToString(n / 10);
    }
  }
}
