/** The Python string and list builtins the core relies on, with the laws the
    other modules need: str.split() on whitespace, str.split(sep),
    str.strip(), sep.join(...), str.replace of one character, str.startswith,
    the `in` substring test, ASCII lower-casing and decimal formatting. */
module PyStr {

  /** Python's str.isspace() for one character (the characters str.split()
      and str.strip() treat as whitespace). */
  predicate IsSpace(c: char) {
    var n := c as int;
    (0x09 <= n <= 0x0D) || (0x1C <= n <= 0x20) || n == 0x85 || n == 0xA0 || n == 0x1680
    || (0x2000 <= n <= 0x200A) || n == 0x2028 || n == 0x2029 || n == 0x202F || n == 0x205F
    || n == 0x3000
  }

  predicate NoSpace(s: string) {
    forall i :: 0 <= i < |s| ==> !IsSpace(s[i])
  }

  /** A word as str.split() produces it: non-empty, no whitespace. */
  predicate IsWord(w: string) {
    w != [] && NoSpace(w)
  }

  predicate AllWords(ws: seq<string>) {
    forall i :: 0 <= i < |ws| ==> IsWord(ws[i])
  }

  /** True when s holds nothing but whitespace (Python: `not s.strip()`). */
  predicate IsBlank(s: string) {
    forall i :: 0 <= i < |s| ==> IsSpace(s[i])
  }

  // ---------------------------------------------------------------- strip

  function LStrip(s: string): (r: string)
    ensures |r| <= |s| && r == s[|s| - |r|..]
    ensures r != [] ==> !IsSpace(r[0])
    ensures forall i :: 0 <= i < |s| - |r| ==> IsSpace(s[i])
  {
    if s != [] && IsSpace(s[0]) then LStrip(s[1..]) else s
  }

  function RStrip(s: string): (r: string)
    ensures |r| <= |s| && r == s[..|r|]
    ensures r != [] ==> !IsSpace(r[|r| - 1])
    ensures forall i :: |r| <= i < |s| ==> IsSpace(s[i])
  {
    if s != [] && IsSpace(s[|s| - 1]) then RStrip(s[..|s| - 1]) else s
  }

  /** str.strip() */
  function Strip(s: string): string {
    RStrip(LStrip(s))
  }

  lemma StripBorders(s: string)
    requires s != [] && !IsSpace(s[0]) && !IsSpace(s[|s| - 1])
    ensures Strip(s) == s
  {
  }

  /** Strip(s) is empty exactly when s is blank. */
  lemma StripEmptyIffBlank(s: string)
    ensures (Strip(s) == []) == IsBlank(s)
  {
    var l := LStrip(s);
    if l == [] {
      forall i | 0 <= i < |s| ensures IsSpace(s[i]) { }
    } else {
      assert !IsSpace(s[|s| - |l|]);
      assert RStrip(l) != [];
    }
  }

  /** What Strip leaves has whitespace at neither end, so stripping twice
      changes nothing. */
  lemma StripIdempotent(s: string)
    ensures Strip(Strip(s)) == Strip(s)
  {
    var r := Strip(s);
    if r != [] {
      var l := LStrip(s);
      assert r == l[..|r|];
      assert r[0] == l[0];
      StripBorders(r);
    }
  }

  /** Strip only removes characters, so it adds none. */
  lemma StripInside(s: string, c: char)
    requires c !in s
    ensures c !in Strip(s)
  {
    var l := LStrip(s);
    var r := RStrip(l);
    var start := |s| - |l|;
    forall i | 0 <= i < |r| ensures r[i] != c {
      assert r[i] == l[i] == s[start + i];
    }
  }

  // ---------------------------------------------------------------- join

  /** sep.join(parts) */
  function JoinWith(sep: string, parts: seq<string>): string
  {
    if |parts| == 0 then []
    else if |parts| == 1 then parts[0]
    else parts[0] + sep + JoinWith(sep, parts[1..])
  }

  /** ' '.join(parts) */
  function JoinSpace(parts: seq<string>): string {
    JoinWith(" ", parts)
  }

  lemma {:induction false} JoinAppend(sep: string, parts: seq<string>, last: string)
    requires parts != []
    ensures JoinWith(sep, parts + [last]) == JoinWith(sep, parts) + sep + last
  {
    if |parts| == 1 {
      assert parts + [last] == [parts[0], last];
    } else {
      assert (parts + [last])[1..] == parts[1..] + [last];
      JoinAppend(sep, parts[1..], last);
    }
  }

  lemma JoinUnfold(sep: string, parts: seq<string>)
    requires |parts| >= 2
    ensures JoinWith(sep, parts) == parts[0] + (sep + JoinWith(sep, parts[1..]))
  {
  }

  lemma {:induction false} JoinConcat(sep: string, a: seq<string>, b: seq<string>)
    requires a != [] && b != []
    ensures JoinWith(sep, a + b) == JoinWith(sep, a) + sep + JoinWith(sep, b)
  {
    if |a| == 1 {
      assert (a + b)[1..] == b;
    } else {
      assert (a + b)[1..] == a[1..] + b;
      JoinConcat(sep, a[1..], b);
    }
  }

  /** Total length of a list of strings. */
  function TotalLength(parts: seq<string>): nat {
    if parts == [] then 0 else |parts[0]| + TotalLength(parts[1..])
  }

  /** A join puts exactly one separator between consecutive parts. */
  lemma {:induction false} JoinLength(sep: string, parts: seq<string>)
    requires parts != []
    ensures |JoinWith(sep, parts)| == TotalLength(parts) + |sep| * (|parts| - 1)
  {
    if |parts| > 1 {
      JoinLength(sep, parts[1..]);
    }
  }

  lemma {:induction false} JoinSpaceEnds(ws: seq<string>)
    requires ws != [] && AllWords(ws)
    ensures var j := JoinSpace(ws);
      j != [] && j[0] == ws[0][0] && j[|j| - 1] == ws[|ws| - 1][|ws[|ws| - 1]| - 1]
  {
    if |ws| > 1 {
      JoinSpaceEnds(ws[1..]);
    }
  }

  /** Flattening a list of lists, in order. */
  function Flatten<T>(xss: seq<seq<T>>): seq<T> {
    if xss == [] then [] else xss[0] + Flatten(xss[1..])
  }

  /** One more element of a prefix. */
  lemma TakeStep<T>(xs: seq<T>, k: nat)
    requires k < |xs|
    ensures xs[..k + 1] == xs[..k] + [xs[k]]
  {
  }

  lemma AppendOne<T>(a: seq<T>, b: seq<T>, x: T)
    ensures a + (b + [x]) == (a + b) + [x]
  {
  }

  lemma {:induction false} FlattenAppend<T>(xss: seq<seq<T>>, xs: seq<T>)
    ensures Flatten(xss + [xs]) == Flatten(xss) + xs
  {
    if xss == [] {
      assert [xs][1..] == [];
    } else {
      assert (xss + [xs])[1..] == xss[1..] + [xs];
      FlattenAppend(xss[1..], xs);
    }
  }

  // ---------------------------------------------------------------- split()

  /** The longest prefix of s that holds no whitespace. */
  function TakeWord(s: string): (w: string)
    ensures |w| <= |s| && w == s[..|w|] && NoSpace(w)
    ensures |w| < |s| ==> IsSpace(s[|w|])
  {
    if s == [] || IsSpace(s[0]) then [] else [s[0]] + TakeWord(s[1..])
  }

  /** str.split() with no argument: the maximal runs of non-whitespace. */
  function Words(s: string): (ws: seq<string>)
    ensures AllWords(ws)
    decreases |s|
  {
    if s == [] then []
    else if IsSpace(s[0]) then Words(s[1..])
    else
      var w := TakeWord(s);
      [w] + Words(s[|w|..])
  }

  lemma {:induction false} TakeWordOfWord(w: string, rest: string)
    requires NoSpace(w) && (rest == [] || IsSpace(rest[0]))
    ensures TakeWord(w + rest) == w
  {
    if w != [] {
      assert (w + rest)[1..] == w[1..] + rest;
      TakeWordOfWord(w[1..], rest);
    }
  }

  lemma WordsOfWord(w: string)
    requires IsWord(w)
    ensures Words(w) == [w]
  {
    TakeWordOfWord(w, []);
    assert w + [] == w;
  }

  /** Splitting a single-spaced join of words gives the words back. */
  lemma {:induction false} WordsOfJoin(ws: seq<string>)
    requires AllWords(ws)
    ensures Words(JoinSpace(ws)) == ws
  {
    if |ws| == 1 {
      WordsOfWord(ws[0]);
    } else if |ws| > 1 {
      var w, rest := ws[0], JoinSpace(ws[1..]);
      TakeWordOfWord(w, " " + rest);
      assert w + " " + rest == w + (" " + rest);
      assert (w + " " + rest)[|w|..] == " " + rest;
      assert (" " + rest)[1..] == rest;
      WordsOfJoin(ws[1..]);
    }
  }

  // ---------------------------------------------------------------- split(sep)

  /** Prefix of s up to the first occurrence of sep. */
  function TakeUntil(s: string, sep: char): (f: string)
    ensures |f| <= |s| && f == s[..|f|] && sep !in f
    ensures |f| < |s| ==> s[|f|] == sep
  {
    if s == [] || s[0] == sep then [] else [s[0]] + TakeUntil(s[1..], sep)
  }

  /** str.split(sep) for a one-character separator: always at least one
      field, and one more field than there are separators. */
  function SplitOn(s: string, sep: char): (fields: seq<string>)
    ensures |fields| >= 1
    ensures forall i :: 0 <= i < |fields| ==> sep !in fields[i]
    decreases |s|
  {
    var f := TakeUntil(s, sep);
    if |f| == |s| then [s] else [f] + SplitOn(s[|f| + 1..], sep)
  }

  lemma {:induction false} TakeUntilOf(f: string, rest: string, sep: char)
    requires sep !in f && (rest == [] || rest[0] == sep)
    ensures TakeUntil(f + rest, sep) == f
  {
    if f != [] {
      assert (f + rest)[1..] == f[1..] + rest;
      TakeUntilOf(f[1..], rest, sep);
    }
  }

  /** Splitting a join on its separator gives the parts back, provided no
      part holds the separator. */
  lemma {:induction false} SplitOfJoin(parts: seq<string>, sep: char)
    requires parts != []
    requires forall i :: 0 <= i < |parts| ==> sep !in parts[i]
    ensures SplitOn(JoinWith([sep], parts), sep) == parts
  {
    if |parts| == 1 {
      TakeUntilOf(parts[0], [], sep);
      assert parts[0] + [] == parts[0];
    } else {
      var f, rest := parts[0], JoinWith([sep], parts[1..]);
      assert f + [sep] + rest == f + ([sep] + rest);
      TakeUntilOf(f, [sep] + rest, sep);
      assert (f + [sep] + rest)[|f| + 1..] == rest;
      SplitOfJoin(parts[1..], sep);
    }
  }

  function Last<T>(xs: seq<T>): T
    requires xs != []
  {
    xs[|xs| - 1]
  }

  /** What Python's s.split(sep)[-1] yields: the text after the last sep, or
      all of s when sep does not occur. */
  lemma {:induction false} SplitLast(s: string, sep: char)
    ensures var r := Last(SplitOn(s, sep));
      && |r| <= |s| && r == s[|s| - |r|..]
      && (|r| < |s| ==> s[|s| - |r| - 1] == sep)
      && (sep !in s ==> r == s)
    decreases |s|
  {
    var f := TakeUntil(s, sep);
    if |f| < |s| {
      var rest := s[|f| + 1..];
      SplitLast(rest, sep);
      var tail := SplitOn(rest, sep);
      assert SplitOn(s, sep) == [f] + tail;
      assert Last(SplitOn(s, sep)) == Last(tail);
      assert s[|f|] == sep;
    } else {
      assert SplitOn(s, sep) == [s];
    }
  }

  /** The last field of a text that ends in sep followed by a field b is b. */
  lemma LastAfterSep(a: string, b: string, sep: char)
    requires sep !in b
    ensures Last(SplitOn(a + [sep] + b, sep)) == b
  {
    var s := a + [sep] + b;
    var n := |a| + 1;
    var fields := SplitOn(s, sep);
    var r := Last(fields);
    SplitLast(s, sep);
    var m := |s| - |r|;
    assert m >= n by {
      assert s[n - 1] == sep;
      forall j | m <= j < |s| ensures s[j] != sep {
        assert s[j] == r[j - m] && r[j - m] in r;
      }
    }
    assert m <= n by {
      forall j | n <= j < |s| ensures s[j] != sep {
        assert s[j] == b[j - n] && b[j - n] in b;
      }
    }
    assert s[n..] == b;
  }

  // ---------------------------------------------------------------- replace

  /** s.replace(c, with) for a one-character pattern. */
  function ReplaceChar(s: string, c: char, with: string): (r: string)
    ensures c !in s ==> r == s
  {
    if s == [] then [] else (if s[0] == c then with else [s[0]]) + ReplaceChar(s[1..], c, with)
  }

  lemma {:induction false} ReplaceCharConcat(a: string, b: string, c: char, with: string)
    ensures ReplaceChar(a + b, c, with) == ReplaceChar(a, c, with) + ReplaceChar(b, c, with)
  {
    if a == [] {
      assert a + b == b;
    } else {
      assert (a + b)[0] == a[0];
      assert (a + b)[1..] == a[1..] + b;
      ReplaceCharConcat(a[1..], b, c, with);
    }
  }

  // ---------------------------------------------------------------- prefixes, substrings

  /** s.startswith(p) */
  predicate StartsWith(s: string, p: string) {
    |p| <= |s| && s[..|p|] == p
  }

  /** `sub in s` */
  predicate Contains(s: string, sub: string)
    decreases |s|
  {
    StartsWith(s, sub) || (s != [] && Contains(s[1..], sub))
  }

  lemma {:induction false} NothingInEmpty(sub: string)
    requires sub != []
    ensures !Contains([], sub)
  {
  }

  // ---------------------------------------------------------------- lower

  function LowerChar(c: char): char {
    if 'A' <= c <= 'Z' then (c as int + 32) as char else c
  }

  /** str.lower(), restricted to ASCII letters. */
  function Lower(s: string): (r: string)
    ensures |r| == |s| && forall i :: 0 <= i < |s| ==> r[i] == LowerChar(s[i])
  {
    seq(|s|, i requires 0 <= i < |s| => LowerChar(s[i]))
  }

  // ---------------------------------------------------------------- str(int)

  predicate IsDigit(c: char) {
    '0' <= c <= '9'
  }

  /** str(n) for a natural number: its decimal digits, no leading zero. */
  function Decimal(n: nat): (r: string)
    ensures r != [] && forall i :: 0 <= i < |r| ==> IsDigit(r[i])
  {
    if n < 10 then [('0' as int + n) as char]
    else Decimal(n / 10) + [('0' as int + n % 10) as char]
  }

  /** Reading decimal digits back as a number. */
  function DigitsValue(s: string): nat
    requires forall i :: 0 <= i < |s| ==> IsDigit(s[i])
  {
    if s == [] then 0
    else
      var d := s[|s| - 1];
      assert IsDigit(d);
      10 * DigitsValue(s[..|s| - 1]) + (d as int - '0' as int)
  }

  lemma {:induction false} DecimalRoundTrip(n: nat)
    ensures DigitsValue(Decimal(n)) == n
  {
    if n >= 10 {
      var d := Decimal(n);
      assert d[..|d| - 1] == Decimal(n / 10);
      DecimalRoundTrip(n / 10);
    }
  }

  /** Distinct numbers print differently. */
  lemma DecimalInjective(a: nat, b: nat)
    requires Decimal(a) == Decimal(b)
    ensures a == b
  {
    DecimalRoundTrip(a);
    DecimalRoundTrip(b);
  }
}
