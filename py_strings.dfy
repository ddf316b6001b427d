/** Python `str` operations the core relies on, with Python's semantics written out:
    `strip()` over Python's whitespace set, ASCII `lower()`, `find`, `endswith`,
    `split(sep)`, `sep.join(parts)` and the substring test `t in s`. */
module PyStrings {

  /** The characters for which Python's `str.isspace()` holds; `str.strip()` without an
      argument removes exactly these from both ends. */
  predicate IsSpace(c: char) {
    || ('\t' <= c <= '\r')
    || ('\U{1c}' <= c <= '\U{1f}')
    || c == ' '
    || c == '\U{85}' || c == '\U{a0}' || c == '\U{1680}'
    || ('\U{2000}' <= c <= '\U{200a}')
    || c == '\U{2028}' || c == '\U{2029}' || c == '\U{202f}' || c == '\U{205f}' || c == '\U{3000}'
  }

  predicate AllSpace(s: string) {
    forall i :: 0 <= i < |s| ==> IsSpace(s[i])
  }

  /** No whitespace at either end: the shape of everything `strip()` returns. */
  predicate IsStripped(s: string) {
    |s| == 0 || (!IsSpace(s[0]) && !IsSpace(s[|s| - 1]))
  }

  /** The index of the first non-whitespace character at or after `i`, or `|s|`. */
  function StartIndex(s: string, i: nat): (a: nat)
    requires i <= |s|
    ensures i <= a <= |s|
    ensures forall k :: i <= k < a ==> IsSpace(s[k])
    ensures a < |s| ==> !IsSpace(s[a])
    decreases |s| - i
  {
    if i < |s| && IsSpace(s[i]) then StartIndex(s, i + 1) else i
  }

  /** The index just past the last non-whitespace character in `s[lo..j]`, or `lo`. */
  function EndIndex(s: string, lo: nat, j: nat): (b: nat)
    requires lo <= j <= |s|
    ensures lo <= b <= j
    ensures forall k :: b <= k < j ==> IsSpace(s[k])
    ensures b > lo ==> !IsSpace(s[b - 1])
    decreases j
  {
    if j > lo && IsSpace(s[j - 1]) then EndIndex(s, lo, j - 1) else j
  }

  /** Python `s.strip()`: the text between the leading and the trailing whitespace. */
  function Strip(s: string): (r: string)
    ensures IsStripped(r)
  {
    var a := StartIndex(s, 0);
    s[a..EndIndex(s, a, |s|)]
  }

  /** `strip()` removes whitespace and nothing else, and only at the two ends: the text is
      its stripped form with whitespace before and after it. */
  lemma StripParts(s: string) returns (pre: string, post: string)
    ensures s == pre + Strip(s) + post
    ensures AllSpace(pre) && AllSpace(post)
    ensures Strip(s) == "" ==> pre == s && post == ""
  {
    var a := StartIndex(s, 0);
    var b := EndIndex(s, a, |s|);
    pre, post := s[..a], s[b..];
    assert s == s[..a] + s[a..b] + s[b..];
  }

  lemma {:induction false} StartIndexIs(s: string, i: nat, a: nat)
    requires i <= a <= |s|
    requires forall k :: i <= k < a ==> IsSpace(s[k])
    requires a < |s| ==> !IsSpace(s[a])
    ensures StartIndex(s, i) == a
    decreases a - i
  {
    if i < a {
      StartIndexIs(s, i + 1, a);
    }
  }

  lemma {:induction false} EndIndexIs(s: string, lo: nat, j: nat, b: nat)
    requires lo <= b <= j <= |s|
    requires forall k :: b <= k < j ==> IsSpace(s[k])
    requires b > lo ==> !IsSpace(s[b - 1])
    ensures EndIndex(s, lo, j) == b
    decreases j - b
  {
    if b < j {
      EndIndexIs(s, lo, j - 1, b);
    }
  }

  /** `strip()` is determined by its result: a text with no whitespace at its ends,
      surrounded by whitespace, strips to exactly that text. */
  lemma StripOf(w1: string, r: string, w2: string)
    requires AllSpace(w1) && AllSpace(w2) && IsStripped(r)
    ensures Strip(w1 + r + w2) == r
  {
    var s := w1 + r + w2;
    if |r| == 0 {
      forall k | 0 <= k < |s| ensures IsSpace(s[k]) {
        if k < |w1| { assert s[k] == w1[k]; } else { assert s[k] == w2[k - |w1|]; }
      }
      StartIndexIs(s, 0, |s|);
      EndIndexIs(s, |s|, |s|, |s|);
    } else {
      var a, b := |w1|, |w1| + |r|;
      assert s[a] == r[0];
      assert s[b - 1] == r[|r| - 1];
      forall k | 0 <= k < a ensures IsSpace(s[k]) { assert s[k] == w1[k]; }
      forall k | b <= k < |s| ensures IsSpace(s[k]) { assert s[k] == w2[k - b]; }
      StartIndexIs(s, 0, a);
      EndIndexIs(s, a, |s|, b);
      assert s[a..b] == r;
    }
  }

  /** Stripping twice is stripping once. */
  lemma StripIdempotent(s: string)
    ensures Strip(Strip(s)) == Strip(s)
  {
    var r := Strip(s);
    assert "" + r + "" == r;
    StripOf("", r, "");
  }

  lemma RegroupAround(pre: string, a: string, m: string, t: string, post: string)
    ensures (pre + a) + m + (t + post) == pre + (a + m + t) + post
  {
  }

  /** Python `s.lstrip()` as a decomposition: leading whitespace, then a text that strips
      like `s` and does not start with whitespace. */
  lemma StripLeft(s: string) returns (pre: string, body: string)
    ensures s == pre + body && AllSpace(pre)
    ensures Strip(body) == Strip(s) && (|body| == 0 || !IsSpace(body[0]))
  {
    var post;
    pre, post := StripParts(s);
    var r := Strip(s);
    body := r + post;
    assert s == pre + body;
    assert "" + r + post == body;
    StripOf("", r, post);
  }

  /** Python `s.rstrip()` as a decomposition: a text that strips like `s` and does not end
      with whitespace, then trailing whitespace. */
  lemma StripRight(s: string) returns (body: string, post: string)
    ensures s == body + post && AllSpace(post)
    ensures Strip(body) == Strip(s) && (|body| == 0 || !IsSpace(body[|body| - 1]))
  {
    var pre;
    pre, post := StripParts(s);
    var r := Strip(s);
    if r == "" {
      body, post := "", s;
      StripIdempotent(s);
    } else {
      body := pre + r;
      assert s == body + post;
      assert pre + r + "" == body;
      StripOf(pre, r, "");
    }
  }

  /** A text with no whitespace at its ends occurs in `s` exactly when it occurs in
      `s.strip()`. */
  lemma StripKeepsPresence(s: string, t: string)
    requires |t| > 0 && IsStripped(t)
    ensures Contains(Strip(s), t) <==> Contains(s, t)
  {
    var a := StartIndex(s, 0);
    var b := EndIndex(s, a, |s|);
    if Contains(s, t) {
      var j :| 0 <= j <= |s| - |t| && OccursAt(s, t, j);
      assert s[j] == s[j..j + |t|][0] == t[0];
      assert s[j + |t| - 1] == s[j..j + |t|][|t| - 1] == t[|t| - 1];
      assert a <= j;
      assert j + |t| <= b;
      OccurrenceInSlice(s, t, a, b, j);
      assert OccursAt(Strip(s), t, j - a);
    }
    if Contains(Strip(s), t) {
      ContainsSlice(s, t, a, b);
    }
  }

  /** Python `c.lower()` on ASCII letters; every other character is left alone. */
  function LowerChar(c: char): char {
    if 'A' <= c <= 'Z' then (c as int + 32) as char else c
  }

  /** Python `s.lower()`, restricted to the ASCII case map. */
  function Lower(s: string): string {
    seq(|s|, i requires 0 <= i < |s| => LowerChar(s[i]))
  }

  lemma LowerIdempotent(s: string)
    ensures Lower(Lower(s)) == Lower(s)
  {
  }

  /** Lower-casing commutes with taking a suffix. */
  lemma LowerSuffix(s: string, m: nat)
    requires m <= |s|
    ensures Lower(s)[m..] == Lower(s[m..])
  {
  }

  /** `t` occurs in `s` starting at index `i`. */
  predicate OccursAt(s: string, t: string, i: int) {
    0 <= i && i + |t| <= |s| && s[i..i + |t|] == t
  }

  /** Python `t in s`. */
  predicate Contains(s: string, t: string) {
    exists i :: 0 <= i <= |s| - |t| && OccursAt(s, t, i)
  }

  /** Python `s.endswith(t)`. */
  predicate EndsWith(s: string, t: string) {
    |t| <= |s| && s[|s| - |t|..] == t
  }

  /** A slice of a slice is a slice of the whole. */
  lemma SliceOfSlice(s: string, a: int, b: int, i: int, k: int)
    requires 0 <= a <= b <= |s| && 0 <= i <= k <= b - a
    ensures s[a..b][i..k] == s[a + i..a + k]
  {
    forall x | 0 <= x < k - i ensures s[a..b][i..k][x] == s[a + i..a + k][x] {}
  }

  /** An occurrence inside `s[a..b]` is an occurrence in `s`, shifted by `a`. */
  lemma SliceOccurrence(s: string, t: string, a: int, b: int, j: int)
    requires 0 <= a <= b <= |s| && OccursAt(s[a..b], t, j)
    ensures OccursAt(s, t, a + j) && a + j + |t| <= b
  {
    SliceOfSlice(s, a, b, j, j + |t|);
  }

  /** An occurrence in `s` that lies within `[a, b)` is an occurrence in `s[a..b]`. */
  lemma OccurrenceInSlice(s: string, t: string, a: int, b: int, i: int)
    requires 0 <= a <= i && i + |t| <= b <= |s| && OccursAt(s, t, i)
    ensures OccursAt(s[a..b], t, i - a)
  {
    SliceOfSlice(s, a, b, i - a, i - a + |t|);
  }

  /** No occurrence that lies within `[a, b)` means `t in s[a:b]` is false. */
  lemma NoOccurrenceIn(s: string, t: string, a: int, b: int)
    requires 0 <= a <= b <= |s|
    requires forall j :: a <= j && j + |t| <= b ==> !OccursAt(s, t, j)
    ensures !Contains(s[a..b], t)
  {
    if Contains(s[a..b], t) {
      var u := s[a..b];
      var j :| 0 <= j <= |u| - |t| && OccursAt(u, t, j);
      SliceOccurrence(s, t, a, b, j);
    }
  }

  /** Python `s.find(t, k)`: the first index at or after `k` where `t` occurs, or -1. */
  function FindFrom(s: string, t: string, k: nat): (r: int)
    ensures r == -1 || (k <= r && OccursAt(s, t, r))
    ensures forall j :: k <= j && (r == -1 || j < r) ==> !OccursAt(s, t, j)
    decreases |s| - k
  {
    if k + |t| > |s| then -1
    else if s[k..k + |t|] == t then k
    else FindFrom(s, t, k + 1)
  }

  /** Python `s.find(t)`. */
  function Find(s: string, t: string): (r: int)
    ensures r == -1 || OccursAt(s, t, r)
    ensures forall j :: 0 <= j && (r == -1 || j < r) ==> !OccursAt(s, t, j)
    ensures r == -1 <==> !Contains(s, t)
  {
    FindFrom(s, t, 0)
  }

  /** `find` is determined by where the occurrences are: the first one at or after `k`. */
  lemma FindFromIs(s: string, t: string, k: nat, i: int)
    requires k <= i && OccursAt(s, t, i)
    requires forall j :: k <= j < i ==> !OccursAt(s, t, j)
    ensures FindFrom(s, t, k) == i
  {
  }

  /** Texts with the same occurrences of `t` agree on every `find`. */
  lemma FindFromSame(s1: string, s2: string, t: string, k: nat)
    requires forall j :: OccursAt(s1, t, j) <==> OccursAt(s2, t, j)
    ensures FindFrom(s1, t, k) == FindFrom(s2, t, k)
  {
    var r1, r2 := FindFrom(s1, t, k), FindFrom(s2, t, k);
    if r1 != -1 && r2 != -1 {
      assert !(r1 < r2) && !(r2 < r1);
    }
  }

  /** Searching a suffix is searching the whole text from where the suffix starts. */
  lemma FindSuffix(s: string, t: string, a: nat)
    requires a <= |s|
    ensures var r := FindFrom(s, t, a);
            Find(s[a..], t) == if r == -1 then -1 else r - a
  {
    var u, r, f := s[a..], FindFrom(s, t, a), Find(s[a..], t);
    assert u == s[a..|s|];
    if f != -1 {
      SliceOccurrence(s, t, a, |s|, f);
    }
    if r != -1 {
      OccurrenceInSlice(s, t, a, |s|, r);
    }
  }

  /** The text before the first occurrence of `t`, or all of `s` when there is none. */
  function Before(s: string, t: string): string {
    var i := Find(s, t);
    if i == -1 then s else s[..i]
  }

  /** The text after the first occurrence of `t`, or the empty text when there is none. */
  function After(s: string, t: string): string {
    var i := Find(s, t);
    if i == -1 then "" else s[i + |t|..]
  }

  /** The pieces of `s[k:].split(sep)`, scanning left to right from index `k`. */
  function SplitFrom(s: string, sep: string, k: nat): (parts: seq<string>)
    requires |sep| > 0 && k <= |s|
    ensures |parts| >= 1
    decreases |s| - k
  {
    var i := FindFrom(s, sep, k);
    if i == -1 then [s[k..]] else [s[k..i]] + SplitFrom(s, sep, i + |sep|)
  }

  /** Python `s.split(sep)` for a non-empty separator (an empty one raises ValueError). */
  function Split(s: string, sep: string): (parts: seq<string>)
    requires |sep| > 0
    ensures |parts| >= 1
  {
    SplitFrom(s, sep, 0)
  }

  function Last(parts: seq<string>): string
    requires |parts| > 0
  {
    parts[|parts| - 1]
  }

  /** Python `sep.join(parts)`. */
  function Join(parts: seq<string>, sep: string): string {
    if |parts| == 0 then ""
    else if |parts| == 1 then parts[0]
    else parts[0] + sep + Join(parts[1..], sep)
  }

  /** The text built by appending `line + "\n"` for each line in order. */
  function Terminated(lines: seq<string>): string {
    if |lines| == 0 then "" else Terminated(lines[..|lines| - 1]) + lines[|lines| - 1] + "\n"
  }

  function SumLengths(parts: seq<string>): nat {
    if |parts| == 0 then 0 else |parts[0]| + SumLengths(parts[1..])
  }

  /** An occurrence inside a slice is an occurrence in the whole text. */
  lemma ContainsSlice(s: string, t: string, a: int, b: int)
    requires 0 <= a <= b <= |s|
    requires Contains(s[a..b], t)
    ensures Contains(s, t)
  {
    var u := s[a..b];
    var j :| 0 <= j <= |u| - |t| && OccursAt(u, t, j);
    SliceOccurrence(s, t, a, b, j);
  }

  /** A text contains every text it is glued around. */
  lemma ContainsWithin(a: string, s: string, b: string, t: string)
    requires Contains(s, t)
    ensures Contains(a + s + b, t)
  {
    var whole := a + s + b;
    assert whole[|a|..|a| + |s|] == s;
    ContainsSlice(whole, t, |a|, |a| + |s|);
  }

  /** An occurrence of an occurrence is an occurrence. */
  lemma ContainsTransitive(a: string, b: string, c: string)
    requires Contains(a, b) && Contains(b, c)
    ensures Contains(a, c)
  {
    var i :| 0 <= i <= |a| - |b| && OccursAt(a, b, i);
    assert a[i..i + |b|] == b;
    ContainsSlice(a, c, i, i + |b|);
  }

  /** A one-character text occurs exactly when the character does. */
  lemma ContainsChar(s: string, c: char)
    ensures Contains(s, [c]) <==> c in s
  {
    if c in s {
      var i :| 0 <= i < |s| && s[i] == c;
      assert s[i..i + 1] == [c];
      assert OccursAt(s, [c], i);
    }
    if Contains(s, [c]) {
      var i :| 0 <= i <= |s| - 1 && OccursAt(s, [c], i);
      assert s[i] == s[i..i + 1][0];
    }
  }

  lemma ContainsSelf(t: string)
    ensures Contains(t, t)
  {
    assert OccursAt(t, t, 0);
  }

  /** A text contains the piece in its middle. */
  lemma ContainsMiddle(a: string, t: string, b: string)
    ensures Contains(a + t + b, t)
  {
    ContainsSelf(t);
    ContainsWithin(a, t, b, t);
  }

  /** A prefix of a text without an occurrence has none either. */
  lemma AbsentFromPrefix(t: string, post: string, x: string)
    requires !Contains(t + post, x)
    ensures !Contains(t, x)
  {
    assert "" + t + post == t + post;
    if Contains(t, x) {
      ContainsWithin("", t, post, x);
    }
  }

  /** Stripping cannot create an occurrence. */
  lemma StripKeepsAbsence(s: string, t: string)
    requires !Contains(s, t)
    ensures !Contains(Strip(s), t)
  {
    var pre, post := StripParts(s);
    if Contains(Strip(s), t) {
      ContainsWithin(pre, Strip(s), post, t);
    }
  }

  lemma {:induction false} SplitFromPartsFree(s: string, sep: string, k: nat)
    requires |sep| > 0 && k <= |s|
    ensures forall p :: p in SplitFrom(s, sep, k) ==> !Contains(p, sep)
    decreases |s| - k
  {
    var i := FindFrom(s, sep, k);
    if i == -1 {
      NoOccurrenceIn(s, sep, k, |s|);
      assert s[k..|s|] == s[k..];
    } else {
      NoOccurrenceIn(s, sep, k, i);
      SplitFromPartsFree(s, sep, i + |sep|);
    }
  }

  /** No piece of a split contains the separator. */
  lemma SplitPartsFree(s: string, sep: string)
    requires |sep| > 0
    ensures forall k :: 0 <= k < |Split(s, sep)| ==> !Contains(Split(s, sep)[k], sep)
  {
    SplitFromPartsFree(s, sep, 0);
  }

  lemma LastAppend(a: seq<string>, b: seq<string>)
    requires |b| > 0
    ensures Last(a + b) == Last(b)
  {
  }

  lemma {:induction false} SplitFromLast(s: string, sep: string, k: nat) returns (m: nat)
    requires |sep| > 0 && k <= |s|
    ensures k <= m <= |s| && Last(SplitFrom(s, sep, k)) == s[m..]
    ensures m > k ==> OccursAt(s, sep, m - |sep|)
    ensures forall j :: m <= j ==> !OccursAt(s, sep, j)
    decreases |s| - k
  {
    var i := FindFrom(s, sep, k);
    if i == -1 {
      m := k;
      assert SplitFrom(s, sep, k) == [s[k..]];
    } else {
      var e := i + |sep|;
      assert SplitFrom(s, sep, k) == [s[k..i]] + SplitFrom(s, sep, e);
      m := SplitFromLast(s, sep, e);
      LastAppend([s[k..i]], SplitFrom(s, sep, e));
    }
  }

  /** Texts of one length with the same occurrences of the separator split at the same
      places, so their last pieces start at the same index. */
  lemma {:induction false} SplitFromLastSame(s1: string, s2: string, sep: string, k: nat)
    returns (m: nat)
    requires |sep| > 0 && k <= |s1| == |s2|
    requires forall j :: OccursAt(s1, sep, j) <==> OccursAt(s2, sep, j)
    ensures m <= |s1|
    ensures Last(SplitFrom(s1, sep, k)) == s1[m..] && Last(SplitFrom(s2, sep, k)) == s2[m..]
    decreases |s1| - k
  {
    FindFromSame(s1, s2, sep, k);
    var i := FindFrom(s1, sep, k);
    assert FindFrom(s2, sep, k) == i;
    if i == -1 {
      m := k;
      assert SplitFrom(s1, sep, k) == [s1[k..]];
      assert SplitFrom(s2, sep, k) == [s2[k..]];
    } else {
      var e := i + |sep|;
      assert SplitFrom(s1, sep, k) == [s1[k..i]] + SplitFrom(s1, sep, e);
      assert SplitFrom(s2, sep, k) == [s2[k..i]] + SplitFrom(s2, sep, e);
      m := SplitFromLastSame(s1, s2, sep, e);
      LastAppend([s1[k..i]], SplitFrom(s1, sep, e));
      LastAppend([s2[k..i]], SplitFrom(s2, sep, e));
    }
  }

  /** Lower-casing does not move a separator that holds no ASCII letter. */
  lemma LowerSameOccurrences(s: string, t: string)
    requires forall q :: 0 <= q < |t| ==> !('A' <= t[q] <= 'Z') && !('a' <= t[q] <= 'z')
    ensures forall j :: OccursAt(Lower(s), t, j) <==> OccursAt(s, t, j)
  {
    forall j ensures OccursAt(Lower(s), t, j) <==> OccursAt(s, t, j) {
      if 0 <= j && j + |t| <= |s| {
        if s[j..j + |t|] == t {
          forall q | 0 <= q < |t| ensures Lower(s)[j..j + |t|][q] == t[q] {
            assert s[j + q] == s[j..j + |t|][q] == t[q];
          }
        }
        if Lower(s)[j..j + |t|] == t {
          forall q | 0 <= q < |t| ensures s[j..j + |t|][q] == t[q] {
            assert LowerChar(s[j + q]) == Lower(s)[j..j + |t|][q] == t[q];
          }
        }
      }
    }
  }

  /** The last piece of `s.split(sep)` is the suffix of `s` after an occurrence of the
      separator, or all of `s` when the separator does not occur; it never contains the
      separator. */
  lemma SplitLast(s: string, sep: string) returns (m: nat)
    requires |sep| > 0
    ensures m <= |s| && Last(Split(s, sep)) == s[m..]
    ensures m > 0 ==> OccursAt(s, sep, m - |sep|)
    ensures !Contains(s[m..], sep)
    ensures !Contains(s, sep) ==> m == 0
  {
    m := SplitFromLast(s, sep, 0);
    NoOccurrenceIn(s, sep, m, |s|);
    assert s[m..|s|] == s[m..];
  }

  /** `s.split(sep)` has a single piece exactly when the separator does not occur, and its
      first piece is the text before the first occurrence. */
  lemma SplitFirst(s: string, sep: string)
    requires |sep| > 0
    ensures (|Split(s, sep)| == 1) <==> !Contains(s, sep)
    ensures Split(s, sep)[0] == Before(s, sep)
  {
    assert s[0..] == s;
  }

  /** When the separator occurs, the second piece of `s.split(sep)` is the text between the
      first and the second occurrence, or up to the end when there is no second one. */
  lemma SplitSecond(s: string, sep: string)
    requires |sep| > 0 && Contains(s, sep)
    ensures |Split(s, sep)| >= 2
    ensures Split(s, sep)[1] == Before(After(s, sep), sep)
  {
    var i := Find(s, sep);
    var a := i + |sep|;
    assert Split(s, sep) == [s[0..i]] + SplitFrom(s, sep, a);
    var u := After(s, sep);
    assert u == s[a..];
    FindSuffix(s, sep, a);
    var r := FindFrom(s, sep, a);
    if r != -1 {
      assert SplitFrom(s, sep, a)[0] == s[a..r];
      assert Find(u, sep) == r - a;
      assert u[..r - a] == s[a..r];
    } else {
      assert SplitFrom(s, sep, a)[0] == s[a..];
      assert Find(u, sep) == -1;
    }
  }

  /** Splitting `a + sep + b` gives back `a` and `b` when the first separator in `a + sep`
      is the one after `a` and `b` does not contain the separator. */
  lemma SplitAround(a: string, sep: string, b: string)
    requires |sep| > 0 && Find(a + sep, sep) == |a| && !Contains(b, sep)
    ensures Split(a + sep + b, sep) == [a, b]
  {
    var s := a + sep + b;
    var e := |a| + |sep|;
    assert s[|a|..e] == sep;
    forall j | 0 <= j < |a| ensures !OccursAt(s, sep, j) {
      assert s[j..j + |sep|] == (a + sep)[j..j + |sep|];
      assert !OccursAt(a + sep, sep, j);
    }
    FindFromIs(s, sep, 0, |a|);
    assert Split(s, sep) == [s[0..|a|]] + SplitFrom(s, sep, e);
    assert s[e..] == b;
    SplitFromFinal(s, sep, e);
    assert s[0..|a|] == a && s[e..] == b;
  }

  /** Dropping a prefix does not create an earlier occurrence: if `t` first occurs in
      `pre + a + t` right after `a`, it first occurs in `a + t` right after `a`. */
  lemma FindPastPrefix(pre: string, a: string, t: string)
    requires Find(pre + a + t, t) == |pre| + |a|
    ensures Find(a + t, t) == |a|
  {
    var s := pre + a + t;
    var u := a + t;
    assert u[|a|..|a| + |t|] == t;
    forall j | 0 <= j < |a| ensures !OccursAt(u, t, j) {
      assert s[|pre| + j..|pre| + j + |t|] == u[j..j + |t|];
      assert !OccursAt(s, t, |pre| + j);
    }
    FindFromIs(u, t, 0, |a|);
  }

  lemma {:induction false} TerminatedConcat(a: seq<string>, b: seq<string>)
    ensures Terminated(a + b) == Terminated(a) + Terminated(b)
    decreases |b|
  {
    if |b| == 0 {
      assert a + b == a;
    } else {
      var c := b[..|b| - 1];
      assert (a + b)[..|a + b| - 1] == a + c;
      assert (a + b)[|a + b| - 1] == b[|b| - 1];
      assert b[..|b| - 1] == c;
      TerminatedConcat(a, c);
    }
  }

  /** The three pieces of a suffix glued from three texts. */
  lemma SuffixParts(s: string, k: nat, x: string, y: string, z: string)
    requires k <= |s| && s[k..] == x + y + z
    ensures s[k..k + |x|] == x && s[k + |x|..k + |x| + |y|] == y && s[k + |x| + |y|..] == z
  {
    var w := x + y + z;
    forall q | 0 <= q < |x| ensures s[k + q] == x[q] { assert s[k..][q] == w[q]; }
    forall q | 0 <= q < |y| ensures s[k + |x| + q] == y[q] { assert s[k..][|x| + q] == w[|x| + q]; }
    forall q | 0 <= q < |z| ensures s[k + |x| + |y| + q] == z[q] {
      assert s[k..][|x| + |y| + q] == w[|x| + |y| + q];
    }
  }

  lemma TerminatedFirst(lines: seq<string>)
    requires |lines| > 0
    ensures Terminated(lines) == lines[0] + "\n" + Terminated(lines[1..])
  {
    var l, rest := lines[0], lines[1..];
    assert lines == [l] + rest;
    TerminatedConcat([l], rest);
    assert [l][..0] == [];
    assert Terminated([l]) == Terminated([]) + l + "\n";
    assert Terminated([l]) == l + "\n";
  }

  /** Splitting on "\n" at the start of a line with no newline in it yields that line. */
  lemma SplitFromLine(s: string, k: nat, l: string, tail: string)
    requires k <= |s| && s[k..] == l + "\n" + tail && '\n' !in l
    ensures k + |l| + 1 <= |s| && s[k + |l| + 1..] == tail
    ensures SplitFrom(s, "\n", k) == [l] + SplitFrom(s, "\n", k + |l| + 1)
  {
    SuffixParts(s, k, l, "\n", tail);
    var e := k + |l|;
    forall j | k <= j < e ensures !OccursAt(s, "\n", j) {
      assert s[j..j + 1][0] == s[j] == l[j - k];
    }
    FindFromIs(s, "\n", k, e);
  }

  lemma {:induction false} SplitFromTerminated(s: string, k: nat, lines: seq<string>)
    requires k <= |s| && s[k..] == Terminated(lines)
    requires forall q :: 0 <= q < |lines| ==> '\n' !in lines[q]
    ensures SplitFrom(s, "\n", k) == lines + [""]
    decreases |lines|
  {
    if |lines| == 0 {
      assert s[k..] == [];
    } else {
      TerminatedFirst(lines);
      SplitFromLine(s, k, lines[0], Terminated(lines[1..]));
      SplitFromTerminated(s, k + |lines[0]| + 1, lines[1..]);
      assert lines == [lines[0]] + lines[1..];
    }
  }

  /** When no line holds a newline, splitting the newline-terminated text on "\n" gives the
      lines back, followed by the empty text after the final newline. */
  lemma SplitTerminated(lines: seq<string>)
    requires forall q :: 0 <= q < |lines| ==> '\n' !in lines[q]
    ensures Split(Terminated(lines), "\n") == lines + [""]
  {
    var s := Terminated(lines);
    assert s[0..] == s;
    SplitFromTerminated(s, 0, lines);
  }

  /** A join of n pieces is as long as the pieces together plus n - 1 separators. */
  lemma {:induction false} JoinLength(parts: seq<string>, sep: string)
    requires |parts| > 0
    ensures |Join(parts, sep)| == SumLengths(parts) + (|parts| - 1) * |sep|
  {
    if |parts| > 1 {
      JoinLength(parts[1..], sep);
      assert (|parts| - 1) * |sep| == (|parts| - 2) * |sep| + |sep|;
    }
  }

  /** Every piece appears verbatim in the join. */
  lemma {:induction false} JoinContains(parts: seq<string>, sep: string, k: nat)
    requires k < |parts|
    ensures Contains(Join(parts, sep), parts[k])
  {
    if |parts| == 1 {
      ContainsSelf(parts[0]);
    } else if k == 0 {
      ContainsMiddle("", parts[0], sep + Join(parts[1..], sep));
      assert "" + parts[0] + (sep + Join(parts[1..], sep)) == Join(parts, sep);
    } else {
      JoinContains(parts[1..], sep, k - 1);
      ContainsWithin(parts[0] + sep, Join(parts[1..], sep), "", parts[k]);
      assert parts[0] + sep + Join(parts[1..], sep) + "" == Join(parts, sep);
    }
  }

  /** Scanning from `k` over a suffix without the separator yields that suffix alone. */
  lemma SplitFromFinal(s: string, sep: string, k: nat)
    requires |sep| > 0 && k <= |s| && !Contains(s[k..], sep)
    ensures SplitFrom(s, sep, k) == [s[k..]]
  {
    var u := s[k..];
    assert s[k..|s|] == u;
    forall j | k <= j && j + |sep| <= |s| ensures !OccursAt(s, sep, j) {
      SliceOfSlice(s, k, |s|, j - k, j - k + |sep|);
      assert !OccursAt(u, sep, j - k);
    }
  }

  /** Where `s` continues at `k` with `p + sep`, and the first separator of `p + sep` is
      the one after `p`, the first separator at or after `k` is the one after `p`. */
  lemma FindFromPiece(s: string, sep: string, k: nat, p: string)
    requires k + |p| + |sep| <= |s| && s[k..k + |p| + |sep|] == p + sep
    requires Find(p + sep, sep) == |p|
    ensures FindFrom(s, sep, k) == k + |p|
  {
    var e := k + |p| + |sep|;
    forall j | k <= j < k + |p| ensures !OccursAt(s, sep, j) {
      SliceOfSlice(s, k, e, j - k, j - k + |sep|);
      assert !OccursAt(p + sep, sep, j - k);
    }
    SliceOfSlice(s, k, e, |p|, |p| + |sep|);
    FindFromIs(s, sep, k, k + |p|);
  }

  /** Scanning from `k`, where the text continues with `p` up to the first separator at or
      after `k`, yields `p` and then scans on from `e`, just after that separator. */
  lemma SplitFromAt(s: string, sep: string, k: nat, p: string, e: nat)
    requires |sep| > 0 && k <= |s| && FindFrom(s, sep, k) == k + |p|
    requires s[k..k + |p|] == p && e == k + |p| + |sep|
    ensures e <= |s| && SplitFrom(s, sep, k) == [p] + SplitFrom(s, sep, e)
  {
  }

  /** The hypothesis of `SplitOfJoin`, part by part: every separator in the join of
      `parts` is one the join inserted. */
  predicate Separable(parts: seq<string>, sep: string)
    requires |parts| > 0
    decreases |parts|
  {
    if |parts| == 1 then !Contains(parts[0], sep)
    else Find(parts[0] + sep, sep) == |parts[0]| && Separable(parts[1..], sep)
  }

  lemma {:induction false} SeparableFromAll(parts: seq<string>, sep: string)
    requires |parts| > 0
    requires forall q :: 0 <= q < |parts| - 1 ==> Find(parts[q] + sep, sep) == |parts[q]|
    requires !Contains(parts[|parts| - 1], sep)
    ensures Separable(parts, sep)
    decreases |parts|
  {
    if |parts| > 1 {
      var rest := parts[1..];
      assert rest[|rest| - 1] == parts[|parts| - 1];
      forall q | 0 <= q < |rest| - 1 ensures Find(rest[q] + sep, sep) == |rest[q]| {
        assert rest[q] == parts[q + 1];
      }
      SeparableFromAll(rest, sep);
    }
  }

  /** One step of scanning a join: where `s` continues at `k` with the join of `parts`,
      the first separator at or after `k` is the one after the first part. */
  lemma JoinedFirstSeparator(s: string, sep: string, k: nat, parts: seq<string>)
    returns (e: nat)
    requires |parts| > 1 && k <= |s| && s[k..] == Join(parts, sep)
    requires Find(parts[0] + sep, sep) == |parts[0]|
    ensures e == k + |parts[0]| + |sep| <= |s|
    ensures FindFrom(s, sep, k) == k + |parts[0]|
    ensures s[k..k + |parts[0]|] == parts[0] && s[e..] == Join(parts[1..], sep)
  {
    var p, tail := parts[0], Join(parts[1..], sep);
    assert Join(parts, sep) == p + sep + tail;
    SuffixParts(s, k, p, sep, tail);
    e := k + |p| + |sep|;
    assert s[k..e] == p + sep;
    FindFromPiece(s, sep, k, p);
  }

  /** Scanning from `k`, where the text continues with the join of separable `parts`,
      finds the parts back. */
  lemma {:induction false} SplitFromJoined(s: string, sep: string, k: nat, parts: seq<string>)
    requires |sep| > 0 && |parts| > 0 && k <= |s| && s[k..] == Join(parts, sep)
    requires Separable(parts, sep)
    ensures SplitFrom(s, sep, k) == parts
    decreases |parts|
  {
    if |parts| == 1 {
      assert s[k..] == parts[0];
      SplitFromFinal(s, sep, k);
      assert parts == [parts[0]];
    } else {
      var e := JoinedFirstSeparator(s, sep, k, parts);
      SplitFromAt(s, sep, k, parts[0], e);
      SplitFromJoined(s, sep, e, parts[1..]);
      assert parts == [parts[0]] + parts[1..];
    }
  }

  /** Python `sep.join(parts).split(sep) == parts` when every separator in the join is one
      the join inserted: each part ends before the first separator after its start, and the
      last part holds no separator. */
  lemma SplitOfJoin(parts: seq<string>, sep: string)
    requires |sep| > 0 && |parts| > 0
    requires forall q :: 0 <= q < |parts| - 1 ==> Find(parts[q] + sep, sep) == |parts[q]|
    requires !Contains(parts[|parts| - 1], sep)
    ensures Split(Join(parts, sep), sep) == parts
  {
    var s := Join(parts, sep);
    assert s[0..] == s;
    SeparableFromAll(parts, sep);
    SplitFromJoined(s, sep, 0, parts);
  }

  /** A text without the character `c`: the first `c` of `d + [c]` is the appended one, and
      `d` does not contain `[c]`. */
  lemma CharFree(d: string, c: char)
    requires c !in d
    ensures Find(d + [c], [c]) == |d| && !Contains(d, [c])
  {
    var u := d + [c];
    forall j | 0 <= j < |d| ensures !OccursAt(u, [c], j) {
      assert u[j..j + 1][0] == d[j];
    }
    assert u[|d|..|d| + 1] == [c];
    FindFromIs(u, [c], 0, |d|);
    ContainsChar(d, c);
  }

  /** A text no longer than `m` occurs in `a + m + b` exactly when it occurs in `a + m` or
      in `m + b`: no occurrence can reach from `a` past `m` into `b`. */
  lemma ContainsAcross(a: string, m: string, b: string, t: string)
    requires |t| <= |m|
    ensures Contains(a + m + b, t) <==> Contains(a + m, t) || Contains(m + b, t)
  {
    var s := a + m + b;
    var e := |a| + |m|;
    assert s[0..e] == a + m && s[|a|..|s|] == m + b;
    if Contains(a + m, t) {
      var i :| 0 <= i <= |a + m| - |t| && OccursAt(a + m, t, i);
      SliceOccurrence(s, t, 0, e, i);
    }
    if Contains(m + b, t) {
      var i :| 0 <= i <= |m + b| - |t| && OccursAt(m + b, t, i);
      SliceOccurrence(s, t, |a|, |s|, i);
    }
    if Contains(s, t) {
      var p :| 0 <= p <= |s| - |t| && OccursAt(s, t, p);
      if p + |t| <= e {
        OccurrenceInSlice(s, t, 0, e, p);
      } else {
        OccurrenceInSlice(s, t, |a|, |s|, p);
      }
    }
  }
}
