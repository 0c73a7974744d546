/** String helpers with the exact semantics of the library calls the
    modelled code makes: Python's str.strip / split / startswith / lower /
    `in`, C++'s find_first_not_of(" \t") trimming and std::getline on a
    delimiter. Strings are sequences of characters; case folding covers
    the ASCII letters only. */
module Text {

  /** Python's str.isspace() characters, which strip(), split() and
      float() all skip: \t to \r, the separators \x1c to \x1f, space,
      \x85, \xa0, U+1680, U+2000 to U+200A, U+2028, U+2029, U+202F,
      U+205F and U+3000. */
  predicate IsPySpace(c: char) {
    var n := c as int;
    9 <= n <= 13 || 28 <= n <= 32 || n == 0x85 || n == 0xA0 || n == 0x1680 ||
    0x2000 <= n <= 0x200A || n == 0x2028 || n == 0x2029 || n == 0x202F || n == 0x205F || n == 0x3000
  }

  /** No character of `s` is whitespace. */
  predicate NoSpace(s: string) {
    forall i :: 0 <= i < |s| ==> !IsPySpace(s[i])
  }

  /** Python str.lstrip(): drop leading whitespace. */
  function StripLeft(s: string): (r: string)
    ensures |r| <= |s| && r == s[|s| - |r|..]
    ensures r == [] || !IsPySpace(r[0])
  {
    if |s| > 0 && IsPySpace(s[0]) then StripLeft(s[1..]) else s
  }

  /** Python str.rstrip(): drop trailing whitespace. */
  function StripRight(s: string): (r: string)
    ensures |r| <= |s| && r == s[..|r|]
    ensures r == [] || !IsPySpace(r[|r| - 1])
  {
    if |s| > 0 && IsPySpace(s[|s| - 1]) then StripRight(s[..|s| - 1]) else s
  }

  /** Python str.strip(). */
  function Strip(s: string): string {
    StripRight(StripLeft(s))
  }

  lemma StripNoSpace(s: string)
    requires NoSpace(s)
    ensures Strip(s) == s
  {
    assert StripLeft(s) == s by {
      if |s| > 0 { assert !IsPySpace(s[0]); }
    }
    if |s| > 0 { assert !IsPySpace(s[|s| - 1]); }
  }

  /** A text that neither begins nor ends with whitespace is its own
      strip(). */
  lemma StripEnds(s: string)
    requires |s| > 0 && !IsPySpace(s[0]) && !IsPySpace(s[|s| - 1])
    ensures Strip(s) == s
  {
    assert StripLeft(s) == s;
  }

  /** The converse: a non-empty text that is its own strip() neither
      begins nor ends with whitespace. */
  lemma StrippedEnds(s: string)
    requires |s| > 0 && Strip(s) == s
    ensures !IsPySpace(s[0]) && !IsPySpace(s[|s| - 1])
  {
    var l := StripLeft(s);
    assert |StripRight(l)| <= |l| <= |s|;
    assert l == s;
  }

  /** strip() removes only whitespace, so any other character survives. */
  lemma {:induction false} StripKeeps(s: string, c: char)
    requires c in s && !IsPySpace(c)
    ensures c in Strip(s)
  {
    StripLeftKeeps(s, c);
    StripRightKeeps(StripLeft(s), c);
  }

  lemma {:induction false} StripLeftKeeps(s: string, c: char)
    requires c in s && !IsPySpace(c)
    ensures c in StripLeft(s)
    decreases |s|
  {
    if |s| > 0 && IsPySpace(s[0]) {
      assert s == [s[0]] + s[1..];
      StripLeftKeeps(s[1..], c);
    }
  }

  lemma {:induction false} StripRightKeeps(s: string, c: char)
    requires c in s && !IsPySpace(c)
    ensures c in StripRight(s)
    decreases |s|
  {
    if |s| > 0 && IsPySpace(s[|s| - 1]) {
      assert s == s[..|s| - 1] + [s[|s| - 1]];
      StripRightKeeps(s[..|s| - 1], c);
    }
  }

  /** Python str.rstrip(c) for one character c. */
  function StripRightChar(s: string, c: char): (r: string)
    ensures |r| <= |s| && r == s[..|r|]
    ensures r == [] || r[|r| - 1] != c
  {
    if |s| > 0 && s[|s| - 1] == c then StripRightChar(s[..|s| - 1], c) else s
  }

  predicate StartsWith(s: string, prefix: string) {
    |prefix| <= |s| && s[..|prefix|] == prefix
  }

  /** A text whose first character differs from the prefix's does not
      start with it. */
  lemma NotStartsWith(s: string, prefix: string)
    requires |s| > 0 && |prefix| > 0 && s[0] != prefix[0]
    ensures !StartsWith(s, prefix)
  {
    if |prefix| <= |s| {
      assert s[..|prefix|][0] != prefix[0];
    }
  }

  predicate EndsWith(s: string, suffix: string) {
    |suffix| <= |s| && s[|s| - |suffix|..] == suffix
  }

  /** Python `needle in s`. */
  predicate Contains(s: string, needle: string)
    decreases |s|
  {
    StartsWith(s, needle) || (|s| > 0 && Contains(s[1..], needle))
  }

  lemma ContainsAt(s: string, needle: string, i: nat)
    requires i + |needle| <= |s| && s[i..i + |needle|] == needle
    ensures Contains(s, needle)
    decreases i
  {
    if i > 0 {
      assert s[1..][i - 1..i - 1 + |needle|] == needle;
      ContainsAt(s[1..], needle, i - 1);
    }
  }

  lemma ContainsChar(s: string, c: char)
    ensures Contains(s, [c]) <==> c in s
    decreases |s|
  {
    if |s| > 0 {
      ContainsChar(s[1..], c);
      assert c in s <==> s[0] == c || c in s[1..];
    }
  }

  /** Python str.lower() on the ASCII letters; every other character is
      kept. The modelled code only asks whether the lowered text contains
      "latency", and no non-ASCII character lowers to any of its letters,
      so that test comes out as in Python. */
  function LowerChar(c: char): char {
    if 'A' <= c <= 'Z' then (c as int + 32) as char else c
  }

  function Lower(s: string): (r: string)
    ensures |r| == |s|
    ensures forall i :: 0 <= i < |s| ==> r[i] == LowerChar(s[i])
  {
    seq(|s|, i requires 0 <= i < |s| => LowerChar(s[i]))
  }

  /** Index of the first `c` in `s`, or |s| when there is none. */
  function FindChar(s: string, c: char): (k: nat)
    ensures k <= |s|
    ensures k < |s| ==> s[k] == c
    ensures forall i :: 0 <= i < k ==> s[i] != c
  {
    if |s| == 0 then 0
    else if s[0] == c then 0
    else 1 + FindChar(s[1..], c)
  }

  lemma FindCharAfter(a: string, c: char, b: string)
    requires c !in a
    ensures FindChar(a + [c] + b, c) == |a|
  {
    var s := a + [c] + b;
    assert s[|a|] == c;
    assert s[..|a|] == a;
  }

  /** Python s.split(sep) for a one-character separator: every field, empty
      ones included, so the result is never empty. */
  function SplitOn(s: string, sep: char): (r: seq<string>)
    ensures |r| >= 1
    ensures forall i :: 0 <= i < |r| ==> sep !in r[i]
    decreases |s|
  {
    var k := FindChar(s, sep);
    if k == |s| then [s] else [s[..k]] + SplitOn(s[k + 1..], sep)
  }

  lemma SplitOnNoSep(s: string, sep: char)
    requires sep !in s
    ensures SplitOn(s, sep) == [s]
  {
  }

  lemma SplitOnCons(a: string, sep: char, b: string)
    requires sep !in a
    ensures SplitOn(a + [sep] + b, sep) == [a] + SplitOn(b, sep)
  {
    var s := a + [sep] + b;
    FindCharAfter(a, sep, b);
    assert s[..|a|] == a;
    assert s[|a| + 1..] == b;
  }

  /** Python s.split() with no argument: maximal runs of non-whitespace. */
  function SplitWs(s: string): (r: seq<string>)
    ensures forall i :: 0 <= i < |r| ==> IsWord(r[i])
    decreases |s|
  {
    if |s| == 0 then []
    else if IsPySpace(s[0]) then SplitWs(s[1..])
    else
      var w := Word(s);
      [w] + SplitWs(s[|w|..])
  }

  /** A field of s.split(): non-empty, without whitespace. */
  predicate IsWord(w: string) {
    w != [] && NoSpace(w)
  }

  /** The leading run of non-whitespace characters. */
  function Word(s: string): (w: string)
    ensures |w| <= |s| && w == s[..|w|] && NoSpace(w)
    ensures |s| > 0 && !IsPySpace(s[0]) ==> |w| > 0
  {
    if |s| > 0 && !IsPySpace(s[0]) then [s[0]] + Word(s[1..]) else []
  }

  /** The leading run of a word followed by whitespace (or nothing) is the
      word itself. */
  lemma {:induction false} WordOf(w: string, tail: string)
    requires NoSpace(w) && (tail == [] || IsPySpace(tail[0]))
    ensures Word(w + tail) == w
    decreases |w|
  {
    if |w| > 0 {
      assert (w + tail)[1..] == w[1..] + tail;
      WordOf(w[1..], tail);
    } else {
      assert w + tail == tail;
    }
  }

  /** Fields written with single spaces between them come back from split(). */
  lemma SplitWsCons(w: string, rest: string)
    requires IsWord(w)
    ensures SplitWs(w + [' '] + rest) == [w] + SplitWs(rest)
  {
    var s := w + [' '] + rest;
    WordOf(w, [' '] + rest);
    assert s == w + ([' '] + rest);
    assert s[|w|..] == [' '] + rest;
    assert ([' '] + rest)[1..] == rest;
  }

  lemma SplitWsWord(w: string)
    requires IsWord(w)
    ensures SplitWs(w) == [w]
  {
    WordOf(w, []);
    assert w + [] == w;
    assert w[|w|..] == [];
  }

  /** Python " ".join(fields). */
  function JoinSpace(fields: seq<string>): string
    decreases |fields|
  {
    if |fields| == 0 then "" else if |fields| == 1 then fields[0]
    else fields[0] + [' '] + JoinSpace(fields[1..])
  }

  /** split() undoes " ".join() of fields without whitespace. */
  lemma {:induction false} JoinSplitWs(fields: seq<string>)
    requires forall i :: 0 <= i < |fields| ==> IsWord(fields[i])
    ensures SplitWs(JoinSpace(fields)) == fields
    decreases |fields|
  {
    if |fields| == 1 {
      SplitWsWord(fields[0]);
    } else if |fields| > 1 {
      JoinSplitWs(fields[1..]);
      SplitWsCons(fields[0], JoinSpace(fields[1..]));
    }
  }

  /** The joined text begins with the first field and ends with the last. */
  lemma {:induction false} JoinSpaceEnds(fields: seq<string>)
    requires |fields| > 0 && forall i :: 0 <= i < |fields| ==> IsWord(fields[i])
    ensures var s := JoinSpace(fields); var z := fields[|fields| - 1];
      IsWord(fields[0]) && IsWord(z) &&
      |s| > 0 && s[0] == fields[0][0] && s[|s| - 1] == z[|z| - 1]
    decreases |fields|
  {
    if |fields| > 1 {
      JoinSpaceEnds(fields[1..]);
    }
  }

  /** A text that contains `needle` contains its first character. */
  lemma {:induction false} ContainsFirst(s: string, needle: string)
    requires |needle| > 0 && Contains(s, needle)
    ensures needle[0] in s
    decreases |s|
  {
    if !StartsWith(s, needle) {
      ContainsFirst(s[1..], needle);
    } else {
      assert s[0] == needle[0];
    }
  }

  lemma AppendAssoc<T>(a: seq<T>, b: seq<T>, c: seq<T>)
    ensures (a + b) + c == a + (b + c)
  {
  }

  /** A slice holds only what the whole holds. */
  lemma SliceLacks<T>(s: seq<T>, x: T, i: nat, j: nat)
    requires x !in s && i <= j <= |s|
    ensures x !in s[i..j]
  {
  }

  /** Dropping the head of a sequence with an element in its middle. */
  lemma TailAround<T>(p: seq<T>, x: T, r: seq<T>)
    requires |p| > 0
    ensures (p + [x] + r)[0] == p[0]
    ensures (p + [x] + r)[1..] == p[1..] + [x] + r
  {
  }

  /** C++ trimming of spaces and tabs with find_first_not_of(" \t") and
      find_last_not_of(" \t"). */
  predicate IsBlank(c: char) { c == ' ' || c == '\t' }

  predicate AllBlank(s: string) {
    forall i :: 0 <= i < |s| ==> IsBlank(s[i])
  }

  /** find_first_not_of(" \t"), with |s| standing for npos. */
  function FirstNotBlank(s: string): (k: nat)
    ensures k <= |s|
    ensures forall i :: 0 <= i < k ==> IsBlank(s[i])
    ensures k < |s| ==> !IsBlank(s[k])
  {
    if |s| > 0 && IsBlank(s[0]) then 1 + FirstNotBlank(s[1..]) else 0
  }

  /** find_last_not_of(" \t"), with -1 standing for npos. */
  function LastNotBlank(s: string): (k: int)
    ensures -1 <= k < |s|
    ensures forall i :: k < i < |s| ==> IsBlank(s[i])
    ensures k >= 0 ==> !IsBlank(s[k])
  {
    if |s| > 0 && IsBlank(s[|s| - 1]) then LastNotBlank(s[..|s| - 1]) else |s| - 1
  }

  /** s.substr(start, end - start + 1) for the two positions above; a string
      of blanks only (start == npos) is returned unchanged. */
  function TrimBlanks(s: string): (r: string)
    ensures AllBlank(s) <==> FirstNotBlank(s) == |s|
    ensures AllBlank(s) ==> r == s
    ensures !AllBlank(s) ==> |r| > 0 && !IsBlank(r[0]) && !IsBlank(r[|r| - 1])
  {
    var start := FirstNotBlank(s);
    if start == |s| then s
    else
      var end := LastNotBlank(s);
      assert start <= end;
      s[start..end + 1]
  }

  /** Trimming removes only blanks: what is cut off at either end is blank,
      and trimming twice changes nothing. */
  lemma {:induction false} TrimBlanksIdempotent(s: string)
    ensures TrimBlanks(TrimBlanks(s)) == TrimBlanks(s)
  {
    var t := TrimBlanks(s);
    if !AllBlank(s) {
      assert !AllBlank(t) by { assert !IsBlank(t[0]); }
      assert FirstNotBlank(t) == 0;
      assert LastNotBlank(t) == |t| - 1;
      assert t[0..|t|] == t;
    }
  }

  /** The tokens std::getline(stream, token, sep) produces: the fields of
      `s` between separators, except that a final empty field (the input is
      empty or ends with the separator) is not produced. */
  function GetlineSplit(s: string, sep: char): (r: seq<string>)
    decreases |s|
  {
    var k := FindChar(s, sep);
    if |s| == 0 then []
    else if k == |s| then [s]
    else [s[..k]] + GetlineSplit(s[k + 1..], sep)
  }

  /** No token contains the separator. */
  lemma {:induction false} GetlineSplitNoSep(s: string, sep: char)
    ensures forall i :: 0 <= i < |GetlineSplit(s, sep)| ==> sep !in GetlineSplit(s, sep)[i]
    decreases |s|
  {
    var k := FindChar(s, sep);
    if |s| > 0 && k < |s| {
      GetlineSplitNoSep(s[k + 1..], sep);
    }
  }

  /** One getline step on a nonempty input: the token up to the first
      separator, then the tokens of what follows it. */
  lemma GetlineCons(s: string, sep: char, k: nat)
    requires k == FindChar(s, sep) && k < |s|
    ensures GetlineSplit(s, sep) == [s[..k]] + GetlineSplit(s[k + 1..], sep)
  {
  }

  /** The last token: a nonempty input without the separator. */
  lemma GetlineLast(s: string, sep: char)
    requires |s| > 0 && FindChar(s, sep) == |s|
    ensures GetlineSplit(s, sep) == [s]
  {
  }

  /** Both cases at once, in the form a getline loop uses. */
  lemma GetlineHead(s: string, sep: char, k: nat, next: string)
    requires |s| > 0 && k == FindChar(s, sep)
    requires next == if k == |s| then [] else s[k + 1..]
    ensures GetlineSplit(s, sep) == [s[..k]] + GetlineSplit(next, sep)
  {
    if k == |s| {
      GetlineLast(s, sep);
      assert s[..k] == s;
      assert GetlineSplit(next, sep) == [];
      assert [s] + [] == [s];
    } else {
      GetlineCons(s, sep, k);
    }
  }

  /** The slice the C++ trimming takes is TrimBlanks. */
  lemma TrimBlanksSlice(s: string, start: nat, end: int)
    requires start == FirstNotBlank(s) && end == LastNotBlank(s)
    ensures start < |s| ==> 0 <= start <= end < |s| && TrimBlanks(s) == s[start..end + 1]
    ensures start == |s| ==> TrimBlanks(s) == s
  {
    if start < |s| {
      assert !IsBlank(s[start]);
      assert start <= end;
    }
  }

  lemma {:induction false} FirstNotBlankAfter(pre: string, t: string)
    requires AllBlank(pre)
    ensures FirstNotBlank(pre + t) == |pre| + FirstNotBlank(t)
  {
    if |pre| > 0 {
      assert (pre + t)[1..] == pre[1..] + t;
      assert IsBlank(pre[0]);
      FirstNotBlankAfter(pre[1..], t);
    } else {
      assert pre + t == t;
    }
  }

  lemma {:induction false} LastNotBlankBefore(t: string, post: string)
    requires AllBlank(post)
    ensures LastNotBlank(t + post) == LastNotBlank(t)
  {
    if |post| > 0 {
      var u := t + post;
      assert u[..|u| - 1] == t + post[..|post| - 1];
      assert IsBlank(u[|u| - 1]);
      LastNotBlankBefore(t, post[..|post| - 1]);
    } else {
      assert t + post == t;
    }
  }

  /** Blanks around a value whose ends are not blank are exactly what the
      trimming removes. */
  lemma TrimBlanksPadded(pre: string, v: string, post: string)
    requires AllBlank(pre) && AllBlank(post)
    requires |v| > 0 && !IsBlank(v[0]) && !IsBlank(v[|v| - 1])
    ensures TrimBlanks(pre + v + post) == v
  {
    var s := pre + v + post;
    FirstNotBlankAfter(pre, v + post);
    assert FirstNotBlank(v + post) == 0;
    LastNotBlankBefore(pre + v, post);
    assert LastNotBlank(pre + v) == |pre| + |v| - 1;
    assert s == pre + (v + post);
    TrimBlanksSlice(s, |pre|, |pre| + |v| - 1);
    assert s[|pre|..|pre| + |v|] == v;
  }
}
