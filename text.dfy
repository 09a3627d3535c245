/** The Python string operations the application relies on, written out:
    `str.isspace`, `str.split()` (no separator), `str.split(sep)` with a
    one-character separator, `sep.join(parts)` and `str.strip()`. */
module Text {

  /** Python's `str.isspace` for one character: the characters that
      `str.split()` and `str.strip()` treat as whitespace. */
  predicate IsSpace(c: char) {
    || c == ' '
    || '\t' <= c <= '\r'
    || '\U{1C}' <= c <= '\U{1F}'
    || c == '\U{85}'
    || c == '\U{A0}'
    || c == '\U{1680}'
    || '\U{2000}' <= c <= '\U{200A}'
    || c == '\U{2028}'
    || c == '\U{2029}'
    || c == '\U{202F}'
    || c == '\U{205F}'
    || c == '\U{3000}'
  }

  predicate AllSpace(s: string) {
    forall i :: 0 <= i < |s| ==> IsSpace(s[i])
  }

  predicate NoSpace(s: string) {
    forall i :: 0 <= i < |s| ==> !IsSpace(s[i])
  }

  // ---------------------------------------------------------------------
  // str.split() with no separator

  /** Length of the run of non-whitespace characters that starts `s`. */
  function LeadingRun(s: string): (n: nat)
    ensures n <= |s|
    ensures NoSpace(s[..n])
    ensures n == |s| || IsSpace(s[n])
  {
    if s == [] || IsSpace(s[0]) then 0 else 1 + LeadingRun(s[1..])
  }

  /** Length of the run of whitespace characters that starts `s`. */
  function LeadingSpace(s: string): (n: nat)
    ensures n <= |s|
    ensures AllSpace(s[..n])
    ensures n == |s| || !IsSpace(s[n])
  {
    if s != [] && IsSpace(s[0]) then 1 + LeadingSpace(s[1..]) else 0
  }

  /** `s.split()`: the maximal runs of non-whitespace characters of `s`,
      in order; leading, trailing and repeated whitespace yield nothing. */
  function Words(s: string): (r: seq<string>)
    ensures TotalLength(r) + |r| <= |s| + 1
    decreases |s|
  {
    if s == [] then []
    else if IsSpace(s[0]) then Words(s[1..])
    else
      var n := LeadingRun(s);
      var rest := Words(s[n..]);
      assert ([s[..n]] + rest)[1..] == rest;
      [s[..n]] + rest
  }

  /** Every word is non-empty and contains no whitespace. */
  lemma {:induction false} WordsAreTokens(s: string)
    ensures forall i :: 0 <= i < |Words(s)| ==> Words(s)[i] != [] && NoSpace(Words(s)[i])
    decreases |s|
  {
    if s == [] {
    } else if IsSpace(s[0]) {
      WordsAreTokens(s[1..]);
    } else {
      var n := LeadingRun(s);
      WordsAreTokens(s[n..]);
      assert Words(s) == [s[..n]] + Words(s[n..]);
    }
  }

  /** `s.split()` is empty exactly when `s` is empty or all whitespace;
      this is when indexing its result at 0 raises. */
  lemma {:induction false} WordsEmptyIff(s: string)
    ensures Words(s) == [] <==> AllSpace(s)
    decreases |s|
  {
    if s == [] {
    } else if IsSpace(s[0]) {
      WordsEmptyIff(s[1..]);
      assert AllSpace(s) <==> AllSpace(s[1..]) by {
        if AllSpace(s[1..]) {
          forall i | 0 <= i < |s| ensures IsSpace(s[i]) {
            if i > 0 { assert s[i] == s[1..][i - 1]; }
          }
        }
      }
    } else {
      assert !AllSpace(s);
    }
  }

  /** The first word is the first maximal non-whitespace run: it follows a
      whitespace-only prefix of `s`, and is followed by whitespace or by the
      end of `s`. */
  lemma {:induction false} FirstWordIsFirstRun(s: string)
    requires !AllSpace(s)
    ensures Words(s) != []
    ensures var k, w := LeadingSpace(s), Words(s)[0];
      && k + |w| <= |s|
      && AllSpace(s[..k])
      && w != [] && NoSpace(w)
      && s[k..k + |w|] == w
      && (k + |w| == |s| || IsSpace(s[k + |w|]))
    decreases |s|
  {
    WordsEmptyIff(s);
    if IsSpace(s[0]) {
      var t := s[1..];
      SpaceThenAllSpace(s);
      FirstWordIsFirstRun(t);
      var k, w := LeadingSpace(t), Words(t)[0];
      FirstWordAfterSpace(s);
      ShiftRun(s, k, w);
    } else {
      FirstWordOfRun(s);
    }
  }

  /** A string that starts outside whitespace has its leading run as its
      first word. */
  lemma FirstWordOfRun(s: string)
    requires s != [] && !IsSpace(s[0])
    ensures LeadingSpace(s) == 0
    ensures Words(s) != [] && Words(s)[0] == s[..LeadingRun(s)]
  {
  }

  /** A gap-then-run layout of a string's tail, shifted past one leading
      whitespace character, is a layout of the whole string. */
  lemma ShiftRun(s: string, k: nat, w: string)
    requires s != [] && IsSpace(s[0])
    requires k + |w| <= |s[1..]| && AllSpace(s[1..][..k]) && s[1..][k..k + |w|] == w
    requires k + |w| == |s[1..]| || IsSpace(s[1..][k + |w|])
    ensures k + 1 + |w| <= |s| && AllSpace(s[..k + 1]) && s[k + 1..k + 1 + |w|] == w
    ensures k + 1 + |w| == |s| || IsSpace(s[k + 1 + |w|])
  {
    var t := s[1..];
    assert t[k..k + |w|] == s[k + 1..k + 1 + |w|];
    assert s[..k + 1] == [s[0]] + t[..k];
  }

  /** Leading whitespace adds to the leading gap and yields no word. */
  lemma FirstWordAfterSpace(s: string)
    requires s != [] && IsSpace(s[0])
    ensures LeadingSpace(s) == 1 + LeadingSpace(s[1..])
    ensures Words(s) == Words(s[1..])
  {
  }

  /** A string that starts with whitespace and continues with nothing but
      whitespace is all whitespace. */
  lemma SpaceThenAllSpace(s: string)
    requires s != [] && IsSpace(s[0])
    ensures AllSpace(s[1..]) ==> AllSpace(s)
  {
    if AllSpace(s[1..]) {
      forall i | 0 <= i < |s| ensures IsSpace(s[i]) {
        if i > 0 { assert s[i] == s[1..][i - 1]; }
      }
    }
  }

  /** A non-empty run of non-whitespace followed by whitespace or by
      nothing is split off as one word. */
  lemma WordsOfRun(w: string, rest: string)
    requires w != [] && NoSpace(w)
    requires rest == [] || IsSpace(rest[0])
    ensures Words(w + rest) == [w] + Words(rest)
  {
    var s := w + rest;
    LeadingRunOf(w, rest);
    assert s[..|w|] == w && s[|w|..] == rest;
  }

  lemma {:induction false} LeadingRunOf(w: string, rest: string)
    requires NoSpace(w)
    requires rest == [] || IsSpace(rest[0])
    ensures LeadingRun(w + rest) == |w|
  {
    if w == [] {
      assert w + rest == rest;
    } else {
      assert (w + rest)[1..] == w[1..] + rest;
      LeadingRunOf(w[1..], rest);
    }
  }

  /** Leading whitespace yields no word. */
  lemma WordsOfSpace(c: char, rest: string)
    requires IsSpace(c)
    ensures Words([c] + rest) == Words(rest)
  {
    assert ([c] + rest)[1..] == rest;
  }

  /** Three words separated by single spaces split back into those three. */
  lemma WordsOfThree(a: string, b: string, c: string)
    requires a != [] && b != [] && c != []
    requires NoSpace(a) && NoSpace(b) && NoSpace(c)
    ensures Words(a + ([' '] + (b + ([' '] + c)))) == [a, b, c]
  {
    var t1 := [' '] + c;
    var t2 := b + t1;
    var t3 := [' '] + t2;
    WordsOfRun(c, "");
    assert c + "" == c;
    assert Words("") == [];
    WordsOfSpace(' ', c);
    WordsOfRun(b, t1);
    WordsOfSpace(' ', t2);
    WordsOfRun(a, t3);
  }

  /** A PubMed publication date such as "2021 Jun 15" splits into its
      year, month and day. */
  lemma DateYearExample(date: string)
    requires date == "2021 Jun 15"
    ensures Words(date) == ["2021", "Jun", "15"]
  {
    assert NoSpace("2021") && NoSpace("Jun") && NoSpace("15");
    WordsOfThree("2021", "Jun", "15");
    assert "2021" + ([' '] + ("Jun" + ([' '] + "15"))) == date;
  }

  // ---------------------------------------------------------------------
  // sep.join(parts)

  /** `sep.join(parts)`. */
  function Join(parts: seq<string>, sep: string): (r: string)
    ensures parts != [] ==> parts[0] <= r
  {
    if parts == [] then ""
    else if |parts| == 1 then parts[0]
    else parts[0] + sep + Join(parts[1..], sep)
  }

  function TotalLength(parts: seq<string>): nat
  {
    if parts == [] then 0 else |parts[0]| + TotalLength(parts[1..])
  }

  /** Joining n >= 1 parts adds n - 1 separators to their total length. */
  lemma {:induction false} JoinLength(parts: seq<string>, sep: string)
    requires parts != []
    ensures |Join(parts, sep)| == TotalLength(parts) + (|parts| - 1) * |sep|
  {
    if |parts| > 1 {
      JoinLength(parts[1..], sep);
    }
  }

  /** Joining two non-empty lists puts one separator between the last
      part of the first and the first part of the second. */
  lemma {:induction false} JoinAppend(a: seq<string>, b: seq<string>, sep: string)
    requires a != [] && b != []
    ensures Join(a + b, sep) == Join(a, sep) + sep + Join(b, sep)
  {
    var ab := a + b;
    assert |ab| > 1 && ab[0] == a[0];
    if |a| == 1 {
      assert ab[1..] == b;
      assert Join(ab, sep) == a[0] + sep + Join(b, sep);
    } else {
      var tail := a[1..];
      assert ab[1..] == tail + b;
      JoinAppend(tail, b, sep);
      var x, y, z := Join(tail, sep), Join(b, sep), a[0] + sep;
      assert Join(ab, sep) == z + (x + sep + y);
      assert Join(a, sep) == z + x;
    }
  }

  // ---------------------------------------------------------------------
  // s.split(sep) for a one-character separator

  /** Index of the first `c` in `s`, or `|s|` when there is none. */
  function IndexOf(s: string, c: char): (i: nat)
    ensures i <= |s|
    ensures c !in s[..i]
    ensures i < |s| ==> s[i] == c
  {
    if s == [] || s[0] == c then 0 else 1 + IndexOf(s[1..], c)
  }

  /** `s.split(c)`: the pieces between occurrences of `c`; there is always
      at least one piece, and the first is the text before the first `c`. */
  function SplitOn(s: string, c: char): (parts: seq<string>)
    ensures |parts| >= 1
    ensures parts[0] == s[..IndexOf(s, c)]
    decreases |s|
  {
    var i := IndexOf(s, c);
    if i == |s| then [s] else [s[..i]] + SplitOn(s[i + 1..], c)
  }

  /** No piece of a split contains the separator. */
  lemma {:induction false} SplitPiecesFree(s: string, c: char)
    ensures forall k :: 0 <= k < |SplitOn(s, c)| ==> c !in SplitOn(s, c)[k]
    decreases |s|
  {
    var i := IndexOf(s, c);
    if i < |s| {
      SplitPiecesFree(s[i + 1..], c);
    }
  }

  /** Joining the pieces with the separator gives back the string. */
  lemma {:induction false} JoinSplit(s: string, c: char)
    ensures Join(SplitOn(s, c), [c]) == s
    decreases |s|
  {
    var i := IndexOf(s, c);
    if i < |s| {
      var rest := SplitOn(s[i + 1..], c);
      var parts := SplitOn(s, c);
      assert parts == [s[..i]] + rest;
      assert |parts| > 1 && parts[0] == s[..i] && parts[1..] == rest;
      assert Join(parts, [c]) == s[..i] + [c] + Join(rest, [c]);
      JoinSplit(s[i + 1..], c);
      assert s == s[..i] + [c] + s[i + 1..];
    }
  }

  /** Splitting a join of separator-free pieces gives back the pieces. */
  lemma {:induction false} SplitJoin(parts: seq<string>, c: char)
    requires parts != []
    requires forall k :: 0 <= k < |parts| ==> c !in parts[k]
    ensures SplitOn(Join(parts, [c]), c) == parts
  {
    var p := parts[0];
    assert IndexOf(p, c) == |p| by { IndexAbsent(p, c); }
    if |parts| > 1 {
      var s := Join(parts, [c]);
      var rest := Join(parts[1..], [c]);
      assert s == p + [c] + rest;
      IndexPast(p, c, rest);
      assert s[..|p|] == p;
      assert s[|p| + 1..] == rest;
      SplitJoin(parts[1..], c);
    }
  }

  lemma {:induction false} IndexAbsent(s: string, c: char)
    requires c !in s
    ensures IndexOf(s, c) == |s|
  {
    if s != [] {
      assert s[0] in s;
      IndexAbsent(s[1..], c);
    }
  }

  lemma {:induction false} IndexPast(p: string, c: char, rest: string)
    requires c !in p
    ensures IndexOf(p + [c] + rest, c) == |p|
  {
    if p != [] {
      assert p[0] in p;
      assert (p + [c] + rest)[1..] == p[1..] + [c] + rest;
      IndexPast(p[1..], c, rest);
    }
  }

  // ---------------------------------------------------------------------
  // str.strip()

  /** The first index at or after `i` that holds no whitespace, or `|s|`. */
  function SkipSpace(s: string, i: nat): (j: nat)
    requires i <= |s|
    ensures i <= j <= |s|
    ensures forall k :: i <= k < j ==> IsSpace(s[k])
    ensures j == |s| || !IsSpace(s[j])
    decreases |s| - i
  {
    if i < |s| && IsSpace(s[i]) then SkipSpace(s, i + 1) else i
  }

  /** The smallest index at or after `lo` from which `s[..j]` holds only
      whitespace. */
  function SkipSpaceBack(s: string, lo: nat, j: nat): (i: nat)
    requires lo <= j <= |s|
    ensures lo <= i <= j
    ensures forall k :: i <= k < j ==> IsSpace(s[k])
    ensures i == lo || !IsSpace(s[i - 1])
    decreases j - lo
  {
    if lo < j && IsSpace(s[j - 1]) then SkipSpaceBack(s, lo, j - 1) else j
  }

  /** `s.strip()`: `s` without its leading and trailing whitespace. */
  function Strip(s: string): (r: string)
    ensures |r| <= |s| && IsStripped(r)
  {
    var lo := SkipSpace(s, 0);
    s[lo..SkipSpaceBack(s, lo, |s|)]
  }

  predicate IsStripped(s: string) {
    s == [] || (!IsSpace(s[0]) && !IsSpace(s[|s| - 1]))
  }

  /** `r` is `s` with whitespace, and only whitespace, cut away on either
      side, leaving no whitespace at either end. */
  predicate StripsTo(s: string, r: string) {
    && IsStripped(r)
    && exists i :: 0 <= i <= i + |r| <= |s|
         && r == s[i..i + |r|]
         && AllSpace(s[..i]) && AllSpace(s[i + |r|..])
  }

  /** `strip()` cuts only whitespace and leaves none at either end. */
  lemma StripSlice(s: string)
    ensures StripsTo(s, Strip(s))
  {
    var lo := SkipSpace(s, 0);
    var hi := SkipSpaceBack(s, lo, |s|);
    var r := Strip(s);
    assert r == s[lo..hi];
    assert r != [] ==> r[0] == s[lo] && r[|r| - 1] == s[hi - 1];
    assert r == s[lo..lo + |r|];
    assert AllSpace(s[..lo]) && AllSpace(s[lo + |r|..]);
  }

  lemma AllSpaceRange(s: string, a: nat, b: nat)
    requires a <= b <= |s|
    requires AllSpace(s[a..b])
    ensures forall k :: a <= k < b ==> IsSpace(s[k])
  {
    forall k | a <= k < b ensures IsSpace(s[k]) {
      assert s[k] == s[a..b][k - a];
    }
  }

  /** `SkipSpace` stops at the first non-whitespace character. */
  lemma SkipSpaceFindsFirst(s: string, i: nat)
    requires i <= |s|
    requires forall k :: 0 <= k < i ==> IsSpace(s[k])
    requires i == |s| || !IsSpace(s[i])
    ensures SkipSpace(s, 0) == i
  {
  }

  /** `SkipSpaceBack` stops after the last non-whitespace character. */
  lemma SkipSpaceBackFindsLast(s: string, lo: nat, e: nat)
    requires lo < e <= |s|
    requires forall k :: e <= k < |s| ==> IsSpace(s[k])
    requires !IsSpace(s[e - 1])
    ensures SkipSpaceBack(s, lo, |s|) == e
  {
  }

  /** And it is the only such cut: whatever whitespace-only cut leaves no
      whitespace at either end is `strip()`. */
  lemma StripUnique(s: string, r: string, i: nat)
    requires i + |r| <= |s| && r == s[i..i + |r|]
    requires AllSpace(s[..i]) && AllSpace(s[i + |r|..])
    requires IsStripped(r)
    ensures r == Strip(s)
  {
    var e := i + |r|;
    assert s[..i] == s[0..i];
    AllSpaceRange(s, 0, i);
    AllSpaceRange(s, e, |s|);
    if r == [] {
      SkipSpaceFindsFirst(s, |s|);
    } else {
      assert s[i] == r[0] && s[e - 1] == r[|r| - 1];
      SkipSpaceFindsFirst(s, i);
      SkipSpaceBackFindsLast(s, i, e);
    }
  }

  /** `StripsTo` describes `strip()` exactly. */
  lemma StripsToUnique(s: string, r: string)
    requires StripsTo(s, r)
    ensures r == Strip(s)
  {
    var i :| 0 <= i <= i + |r| <= |s| && r == s[i..i + |r|] && AllSpace(s[..i]) && AllSpace(s[i + |r|..]);
    StripUnique(s, r, i);
  }

  /** Stripping twice is stripping once. */
  lemma StripIdempotent(s: string)
    ensures Strip(Strip(s)) == Strip(s)
  {
    StripSlice(s);
    StrippedIsFixed(Strip(s));
  }

  /** A string without surrounding whitespace is left as it is. */
  lemma StrippedIsFixed(s: string)
    requires IsStripped(s)
    ensures Strip(s) == s
  {
    assert s[0..|s|] == s && s[..0] == [] && s[|s|..] == [];
    StripUnique(s, s, 0);
  }
}
