/** The few Python string and integer builtins the extraction tools rely on:
    `str.isspace`, `str.split()`, `str.split(sep)`, `str.strip()`, `int(s)`,
    the decimal text of a number in an f-string, substring tests with `in`,
    list indexing with negative indices, and `range`. */
module PyText {
  import opened Wrappers

  // ---------------------------------------------------------------------------
  // Whitespace

  /** Python's `str.isspace()` on one character: the characters that
      `str.split()` separates on and `int()` and `str.strip()` skip. */
  predicate IsSpace(c: char) {
    var n := c as int;
    (9 <= n <= 13) || (28 <= n <= 32) || n == 133 || n == 160 || n == 5760
    || (8192 <= n <= 8202) || n == 8232 || n == 8233 || n == 8239 || n == 8287
    || n == 12288
  }

  /** The characters of `s` that are not whitespace, in order. */
  function NonSpace(s: string): string {
    if s == [] then [] else (if IsSpace(s[0]) then [] else [s[0]]) + NonSpace(s[1..])
  }

  /** All strings of `ws` concatenated. */
  function Flatten(ws: seq<string>): string {
    if ws == [] then [] else ws[0] + Flatten(ws[1..])
  }

  // ---------------------------------------------------------------------------
  // str.split() with no argument

  /** Length of the run of non-whitespace characters that starts `s`. */
  function WordLen(s: string): (n: nat)
    ensures n <= |s|
    ensures forall k :: 0 <= k < n ==> !IsSpace(s[k])
    ensures n == |s| || IsSpace(s[n])
  {
    if s == [] || IsSpace(s[0]) then 0 else 1 + WordLen(s[1..])
  }

  /** Python's `s.split()`: the maximal runs of non-whitespace characters of `s`, in order. */
  function Words(s: string): (ws: seq<string>)
    ensures |ws| <= |s|
    decreases |s|
  {
    if s == [] then []
    else if IsSpace(s[0]) then Words(s[1..])
    else var n := WordLen(s); [s[..n]] + Words(s[n..])
  }

  lemma {:induction false} NonSpaceOfWord(s: string, n: nat)
    requires n <= |s| && forall k :: 0 <= k < n ==> !IsSpace(s[k])
    ensures NonSpace(s) == s[..n] + NonSpace(s[n..])
    decreases n
  {
    if n > 0 {
      NonSpaceOfWord(s[1..], n - 1);
      assert s[1..][..n - 1] == s[1..n] && s[1..][n - 1..] == s[n..];
      assert s[..n] == [s[0]] + s[1..n];
    }
  }

  /** Every word of `s.split()` is non-empty and free of whitespace, and together
      the words hold exactly the non-whitespace characters of `s`, in order. */
  lemma {:induction false} WordsShape(s: string)
    ensures forall w :: w in Words(s) ==> w != [] && forall c :: c in w ==> !IsSpace(c)
    ensures Flatten(Words(s)) == NonSpace(s)
    decreases |s|
  {
    if s == [] {
    } else if IsSpace(s[0]) {
      WordsShape(s[1..]);
    } else {
      var n := WordLen(s);
      WordsShape(s[n..]);
      NonSpaceOfWord(s, n);
      assert Words(s) == [s[..n]] + Words(s[n..]);
      assert Flatten(Words(s)) == s[..n] + Flatten(Words(s[n..]));
    }
  }

  lemma {:induction false} FlattenLength(ws: seq<string>)
    requires forall w :: w in ws ==> w != []
    ensures |ws| <= |Flatten(ws)|
  {
    if ws != [] {
      assert ws[0] in ws;
      assert forall w :: w in ws[1..] ==> w in ws;
      FlattenLength(ws[1..]);
    }
  }

  lemma {:induction false} NonSpaceLength(s: string)
    ensures |NonSpace(s)| <= |s|
  {
    if s != [] {
      NonSpaceLength(s[1..]);
    }
  }

  /** `s.split()` never has more words than `s` has non-whitespace characters. */
  lemma {:induction false} WordCountBound(s: string)
    ensures |Words(s)| <= |NonSpace(s)| <= |s|
  {
    WordsShape(s);
    FlattenLength(Words(s));
    NonSpaceLength(s);
  }

  lemma {:induction false} WordLenAppend(a: string, b: string)
    requires a != [] && IsSpace(a[|a| - 1])
    ensures WordLen(a + b) == WordLen(a) < |a|
  {
    if !IsSpace(a[0]) {
      assert |a| > 1;
      assert (a + b)[1..] == a[1..] + b;
      WordLenAppend(a[1..], b);
    }
  }

  /** Text that ends in whitespace splits independently of what follows it. */
  lemma {:induction false} WordsAppend(a: string, b: string)
    requires a == [] || IsSpace(a[|a| - 1])
    ensures Words(a + b) == Words(a) + Words(b)
    decreases |a|
  {
    if a == [] {
      assert a + b == b;
    } else if IsSpace(a[0]) {
      assert (a + b)[1..] == a[1..] + b;
      WordsAppend(a[1..], b);
    } else {
      WordLenAppend(a, b);
      var n := WordLen(a);
      assert (a + b)[0] == a[0];
      assert (a + b)[..n] == a[..n];
      assert (a + b)[n..] == a[n..] + b;
      WordsAppend(a[n..], b);
      assert Words(a + b) == [a[..n]] + (Words(a[n..]) + Words(b));
      ConcatAssoc([a[..n]], Words(a[n..]), Words(b));
    }
  }

  lemma {:induction false} WordsAllSpace(w: string)
    requires forall k :: 0 <= k < |w| ==> IsSpace(w[k])
    ensures Words(w) == []
  {
    if w != [] {
      WordsAllSpace(w[1..]);
    }
  }

  lemma {:induction false} WordLenSpaceTail(t: string, w: string)
    requires w == [] || IsSpace(w[0])
    ensures WordLen(t + w) == WordLen(t)
  {
    if t == [] {
      assert t + w == w;
    } else if !IsSpace(t[0]) {
      assert (t + w)[1..] == t[1..] + w;
      WordLenSpaceTail(t[1..], w);
    }
  }

  /** Trailing whitespace adds no word. */
  lemma {:induction false} WordsSpaceTail(t: string, w: string)
    requires forall k :: 0 <= k < |w| ==> IsSpace(w[k])
    ensures Words(t + w) == Words(t)
    decreases |t|
  {
    if t == [] {
      assert t + w == w;
      WordsAllSpace(w);
    } else if IsSpace(t[0]) {
      assert (t + w)[1..] == t[1..] + w;
      WordsSpaceTail(t[1..], w);
    } else {
      WordLenSpaceTail(t, w);
      var n := WordLen(t);
      assert (t + w)[..n] == t[..n];
      assert (t + w)[n..] == t[n..] + w;
      WordsSpaceTail(t[n..], w);
    }
  }

  // ---------------------------------------------------------------------------
  // str.strip()

  /** `s.lstrip()`. */
  function TrimStart(s: string): string {
    if s != [] && IsSpace(s[0]) then TrimStart(s[1..]) else s
  }

  /** `s.rstrip()`. */
  function TrimEnd(s: string): string {
    if s != [] && IsSpace(s[|s| - 1]) then TrimEnd(s[..|s| - 1]) else s
  }

  /** `lstrip` removes exactly the leading whitespace: what is left is a suffix
      that does not start with whitespace, and everything removed was whitespace. */
  lemma {:induction false} TrimStartShape(s: string)
    ensures var t := TrimStart(s);
      |t| <= |s| && t == s[|s| - |t|..] && (t == [] || !IsSpace(t[0])) &&
      forall k :: 0 <= k < |s| - |t| ==> IsSpace(s[k])
  {
    if s != [] && IsSpace(s[0]) {
      var t := TrimStart(s[1..]);
      TrimStartShape(s[1..]);
      assert TrimStart(s) == t;
      assert s[1..][|s| - 1 - |t|..] == s[|s| - |t|..];
      assert forall k :: 1 <= k < |s| - |t| ==> s[1..][k - 1] == s[k];
    }
  }

  /** `rstrip` removes exactly the trailing whitespace. */
  lemma {:induction false} TrimEndShape(s: string)
    ensures var t := TrimEnd(s);
      |t| <= |s| && t == s[..|t|] && (t == [] || !IsSpace(t[|t| - 1])) &&
      forall k :: |t| <= k < |s| ==> IsSpace(s[k])
  {
    if s != [] && IsSpace(s[|s| - 1]) {
      var t := TrimEnd(s[..|s| - 1]);
      TrimEndShape(s[..|s| - 1]);
      assert TrimEnd(s) == t;
      assert s[..|s| - 1][..|t|] == s[..|t|];
      assert forall k :: |t| <= k < |s| - 1 ==> s[..|s| - 1][k] == s[k];
    }
  }

  /** `rstrip` keeps a first character that is not whitespace. */
  lemma {:induction false} TrimEndKeepsHead(s: string)
    requires s != [] && !IsSpace(s[0])
    ensures TrimEnd(s) != [] && TrimEnd(s)[0] == s[0]
  {
    TrimEndShape(s);
  }

  /** Python's `s.strip()`: `s` without its leading and trailing whitespace. */
  function Strip(s: string): string {
    TrimEnd(TrimStart(s))
  }

  // ---------------------------------------------------------------------------
  // Decimal numbers: str(n) and int(s)

  predicate IsDigit(c: char) {
    '0' <= c <= '9'
  }

  function DigitValue(c: char): nat
    requires IsDigit(c)
  {
    c as int - '0' as int
  }

  function DigitChar(d: nat): (c: char)
    requires d < 10
    ensures IsDigit(c) && DigitValue(c) == d
  {
    (d + '0' as int) as char
  }

  /** The shape `int()` accepts after an optional sign: decimal digits, where a
      single underscore may stand between two digits. */
  predicate DigitString(s: string) {
    && |s| > 0 && IsDigit(s[0]) && IsDigit(s[|s| - 1])
    && (forall k :: 0 <= k < |s| ==> IsDigit(s[k]) || s[k] == '_')
    && (forall k :: 0 <= k < |s| - 1 ==> s[k] == '_' ==> s[k + 1] != '_')
  }

  /** The number a digit string denotes, underscores ignored. */
  function DigitsValue(s: string): nat
    requires forall k :: 0 <= k < |s| ==> IsDigit(s[k]) || s[k] == '_'
  {
    if s == [] then 0
    else if s[|s| - 1] == '_' then DigitsValue(s[..|s| - 1])
    else 10 * DigitsValue(s[..|s| - 1]) + DigitValue(s[|s| - 1])
  }

  /** Python's `int(s)` in base 10: surrounding whitespace is ignored, one sign
      is allowed, and anything else raises `ValueError` (here `None`). */
  function ParseInt(s: string): (r: Option<int>)
    ensures r.Some? ==> |Strip(s)| > 0 && IsDigit(Strip(s)[|Strip(s)| - 1])
    ensures r.Some? && r.value < 0 ==> Strip(s)[0] == '-'
  {
    var t := Strip(s);
    if |t| > 0 && (t[0] == '+' || t[0] == '-') then
      if DigitString(t[1..]) then
        var v: int := DigitsValue(t[1..]);
        Some(if t[0] == '-' then -v else v)
      else None
    else if DigitString(t) then Some(DigitsValue(t))
    else None
  }

  /** The decimal text of `n`, as an f-string `{n}` writes it. */
  function NatStr(n: nat): (s: string)
    ensures |s| > 0 && forall k :: 0 <= k < |s| ==> IsDigit(s[k])
  {
    if n < 10 then [DigitChar(n)] else NatStr(n / 10) + [DigitChar(n % 10)]
  }

  lemma {:induction false} NatStrValue(n: nat)
    ensures DigitsValue(NatStr(n)) == n
  {
    var s := NatStr(n);
    if n >= 10 {
      NatStrValue(n / 10);
      assert s[..|s| - 1] == NatStr(n / 10);
    } else {
      assert s[..0] == [];
    }
  }

  lemma {:induction false} NoSpaceStrip(s: string)
    requires forall k :: 0 <= k < |s| ==> !IsSpace(s[k])
    ensures Strip(s) == s
  {
    assert TrimStart(s) == s;
    assert TrimEnd(s) == s;
  }

  /** A run of decimal digits, without sign, underscore or space. */
  predicate IsDecimal(s: string) {
    |s| > 0 && forall k :: 0 <= k < |s| ==> IsDigit(s[k])
  }

  /** `int(s)` of a plain digit run is the number it denotes. */
  lemma {:induction false} ParseDecimal(s: string)
    requires IsDecimal(s)
    ensures ParseInt(s) == Some(DigitsValue(s))
  {
    DecimalStrip(s);
    assert !(s[0] == '+' || s[0] == '-') by { assert IsDigit(s[0]); }
  }

  lemma {:induction false} DecimalStrip(s: string)
    requires IsDecimal(s)
    ensures Strip(s) == s && DigitString(s)
  {
    forall k | 0 <= k < |s| ensures !IsSpace(s[k]) {
      assert IsDigit(s[k]);
    }
    NoSpaceStrip(s);
  }

  /** `int(str(n)) == n`: parsing undoes formatting. */
  lemma {:induction false} ParseNatStr(n: nat)
    ensures ParseInt(NatStr(n)) == Some(n)
  {
    ParseDecimal(NatStr(n));
    NatStrValue(n);
  }

  // ---------------------------------------------------------------------------
  // str.split(sep) with a one-character separator

  /** Python's `s.split(sep)`: the pieces between occurrences of `sep`, empty
      pieces included; `"".split(sep)` is `[""]`. */
  function SplitOn(s: string, sep: char): (parts: seq<string>)
    ensures |parts| >= 1
  {
    if s == [] then [""]
    else
      var rest := SplitOn(s[1..], sep);
      if s[0] == sep then [""] + rest else [[s[0]] + rest[0]] + rest[1..]
  }

  /** `sep.join(parts)`. */
  function JoinWith(parts: seq<string>, sep: char): string
    requires |parts| >= 1
  {
    if |parts| == 1 then parts[0] else parts[0] + [sep] + JoinWith(parts[1..], sep)
  }

  /** Splitting on `sep` and joining with `sep` gives back the string. */
  lemma {:induction false} SplitJoin(s: string, sep: char)
    ensures JoinWith(SplitOn(s, sep), sep) == s
  {
    if s != [] {
      var rest := SplitOn(s[1..], sep);
      SplitJoin(s[1..], sep);
      var parts := SplitOn(s, sep);
      assert s == [s[0]] + s[1..];
      if s[0] == sep {
        assert parts == [""] + rest && parts[1..] == rest;
        assert JoinWith(parts, sep) == "" + [sep] + JoinWith(rest, sep);
      } else {
        var head := [s[0]] + rest[0];
        assert parts == [head] + rest[1..];
        if |rest| == 1 {
          assert JoinWith(parts, sep) == head;
        } else {
          var tail := JoinWith(rest[1..], sep);
          assert parts[1..] == rest[1..];
          assert JoinWith(parts, sep) == head + [sep] + tail;
          assert JoinWith(rest, sep) == rest[0] + [sep] + tail;
          ConcatAssoc([s[0]], rest[0], [sep]);
          ConcatAssoc([s[0]], rest[0] + [sep], tail);
        }
      }
    }
  }

  /** No piece of `s.split(sep)` contains `sep`. */
  lemma {:induction false} SplitPieces(s: string, sep: char)
    ensures forall p :: p in SplitOn(s, sep) ==> sep !in p
  {
    if s != [] {
      var rest := SplitOn(s[1..], sep);
      SplitPieces(s[1..], sep);
      var parts := SplitOn(s, sep);
      if s[0] == sep {
        assert parts == [""] + rest;
      } else {
        var head := [s[0]] + rest[0];
        assert parts == [head] + rest[1..];
        assert rest[0] in rest;
        assert sep !in head;
        assert forall p :: p in parts ==> p == head || p in rest;
      }
    }
  }

  /** A string without `sep` is one piece. */
  lemma {:induction false} SplitNoSep(s: string, sep: char)
    requires sep !in s
    ensures SplitOn(s, sep) == [s]
  {
    if s != [] {
      assert s[0] != sep;
      SplitNoSep(s[1..], sep);
      assert s == [s[0]] + s[1..];
    }
  }

  /** Splitting `a + sep + b` splits `a` and `b` separately. */
  lemma {:induction false} SplitAt(a: string, sep: char, b: string)
    ensures SplitOn(a + [sep] + b, sep) == SplitOn(a, sep) + SplitOn(b, sep)
  {
    if a == [] {
      assert a + [sep] + b == [sep] + b;
      assert ([sep] + b)[1..] == b;
    } else {
      assert (a + [sep] + b)[1..] == a[1..] + [sep] + b;
      SplitAt(a[1..], sep, b);
    }
  }

  /** Concatenation is associative. */
  lemma ConcatAssoc<T>(a: seq<T>, b: seq<T>, c: seq<T>)
    ensures a + (b + c) == (a + b) + c
  {
  }

  /** A prefix one longer is the prefix followed by the next element. */
  lemma PrefixSnoc<T>(s: seq<T>, i: nat)
    requires i < |s|
    ensures s[..i + 1] == s[..i] + [s[i]]
  {
  }

  /** A log that grows by the next element of `s` holds one more of its prefix. */
  lemma {:induction false} LogSnoc<T>(a: seq<T>, s: seq<T>, i: nat)
    requires i < |s|
    ensures (a + s[..i]) + [s[i]] == a + s[..i + 1]
  {
    PrefixSnoc(s, i);
    ConcatAssoc(a, s[..i], [s[i]]);
  }

  // ---------------------------------------------------------------------------
  // Substrings, indexing, ranges

  /** Python's `sub in s` for strings. */
  predicate Contains(s: string, sub: string)
    decreases |s|
  {
    (|sub| <= |s| && s[..|sub|] == sub) || (s != [] && Contains(s[1..], sub))
  }

  /** `sub` occurs in `s` when it stands at some offset. */
  lemma {:induction false} ContainsAt(s: string, sub: string, i: nat)
    requires i + |sub| <= |s| && s[i..i + |sub|] == sub
    ensures Contains(s, sub)
  {
    if i > 0 {
      assert s[1..][i - 1..i - 1 + |sub|] == s[i..i + |sub|];
      ContainsAt(s[1..], sub, i - 1);
    }
  }

  /** A string shorter than `sub` does not contain it. */
  lemma {:induction false} ShortNotContains(s: string, sub: string)
    requires |s| < |sub|
    ensures !Contains(s, sub)
  {
    if s != [] {
      ShortNotContains(s[1..], sub);
    }
  }

  /** Python's `xs[i]`: negative indices count from the end; outside
      `-len(xs) <= i < len(xs)` it raises `IndexError`. */
  function PyIndex<T>(xs: seq<T>, i: int): (r: Result<T>)
    ensures r.Ok? <==> -|xs| <= i < |xs|
    ensures 0 <= i < |xs| ==> r == Ok(xs[i])
    ensures -|xs| <= i < 0 ==> r == Ok(xs[|xs| + i])
  {
    if 0 <= i < |xs| then Ok(xs[i])
    else if -|xs| <= i < 0 then Ok(xs[|xs| + i])
    else Err
  }

  /** Python's `range(a, b + 1)`: `a, a+1, ..., b`, empty when `a > b`. */
  function IntRange(a: int, b: int): seq<int> {
    seq(if a <= b then b - a + 1 else 0, k => a + k)
  }
}
