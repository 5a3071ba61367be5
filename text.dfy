/**
  String operations of Go's standard library that the tools rely on
  (strings.HasPrefix, HasSuffix, Contains, Trim, Split, Join, Cut, Replace,
  ReplaceAll, ToUpper, strconv.Itoa, strconv.Unquote), written out on
  `seq<char>`, together with the byte-wise ordering Go uses for `<` on strings.
*/
module Text {
  import opened Options
  import opened Sorting

  predicate HasPrefix(s: string, p: string) {
    |p| <= |s| && s[..|p|] == p
  }

  predicate HasSuffix(s: string, p: string) {
    |p| <= |s| && s[|s| - |p|..] == p
  }

  /** A prefix one longer is the prefix and the next element. */
  lemma PrefixSnoc<T>(s: seq<T>, i: nat)
    requires i < |s|
    ensures s[..i + 1] == s[..i] + [s[i]]
  {
  }

  /** strings.Contains */
  predicate Contains(s: string, sub: string)
    decreases |s|
  {
    HasPrefix(s, sub) || (|s| > 0 && Contains(s[1..], sub))
  }

  lemma {:induction false} ContainsAt(s: string, sub: string, i: nat)
    requires i + |sub| <= |s| && s[i..i + |sub|] == sub
    ensures Contains(s, sub)
    decreases i
  {
    if i > 0 {
      assert s[1..][i - 1..i - 1 + |sub|] == s[i..i + |sub|];
      ContainsAt(s[1..], sub, i - 1);
    } else {
      assert s[..|sub|] == sub;
    }
  }

  lemma {:induction false} ContainsPrefixOf(s: string, t: string, sub: string)
    requires Contains(s, sub)
    ensures Contains(s + t, sub)
    decreases |s|
  {
    if HasPrefix(s, sub) {
      assert (s + t)[..|sub|] == s[..|sub|];
    } else {
      assert (s + t)[1..] == s[1..] + t;
      ContainsPrefixOf(s[1..], t, sub);
    }
  }

  /** strings.TrimPrefix */
  function TrimPrefix(s: string, p: string): (r: string)
    ensures HasPrefix(s, p) ==> s == p + r
    ensures !HasPrefix(s, p) ==> r == s
  {
    if HasPrefix(s, p) then s[|p|..] else s
  }

  /** strings.TrimLeft with a one-character cutset. */
  function TrimLeft(s: string, c: char): (r: string)
    ensures |r| <= |s| && r == s[|s| - |r|..]
    ensures |r| > 0 ==> r[0] != c
    ensures forall i :: 0 <= i < |s| - |r| ==> s[i] == c
    decreases |s|
  {
    if |s| > 0 && s[0] == c then TrimLeft(s[1..], c) else s
  }

  /** strings.TrimRight with a one-character cutset. */
  function TrimRight(s: string, c: char): (r: string)
    ensures |r| <= |s| && r == s[..|r|]
    ensures |r| > 0 ==> r[|r| - 1] != c
    ensures forall i :: |r| <= i < |s| ==> s[i] == c
    decreases |s|
  {
    if |s| > 0 && s[|s| - 1] == c then TrimRight(s[..|s| - 1], c) else s
  }

  /** strings.Trim(s, `"`): every leading and trailing double quote removed. */
  function TrimQuotes(s: string): (r: string)
    ensures |r| <= |s|
    ensures |r| > 0 ==> r[0] != '"' && r[|r| - 1] != '"'
    ensures var l := |s| - |TrimLeft(s, '"')|;
      && l + |r| <= |s| && r == s[l..l + |r|]
      && (forall k :: 0 <= k < l ==> s[k] == '"')
      && (forall k :: l + |r| <= k < |s| ==> s[k] == '"')
  {
    TrimRight(TrimLeft(s, '"'), '"')
  }

  lemma TrimQuotesOfQuoted(inner: string)
    requires |inner| > 0 ==> inner[0] != '"' && inner[|inner| - 1] != '"'
    ensures TrimQuotes("\"" + inner + "\"") == inner
  {
    var s := "\"" + inner + "\"";
    assert s[1..] == inner + "\"";
    assert TrimLeft(s, '"') == TrimLeft(inner + "\"", '"');
    if |inner| > 0 {
      assert (inner + "\"")[0] == inner[0];
      assert TrimLeft(inner + "\"", '"') == inner + "\"";
      assert (inner + "\"")[..|inner|] == inner;
    } else {
      assert inner + "\"" == "\"";
      assert "\""[1..] == "";
    }
  }

  /**
    strconv.Unquote, reduced to what the analyzer needs: a text delimited by
    double quotes or by back quotes, with no further delimiter inside, loses
    its delimiters. Escape sequences are not interpreted.
  */
  function Unquote(s: string): (r: Option<string>)
    ensures r.Some? ==> |s| >= 2 && r.value == s[1..|s| - 1]
    ensures r.Some? ==> s[0] == s[|s| - 1] && (s[0] == '"' || s[0] == '`')
  {
    if |s| >= 2 && s[0] == s[|s| - 1] && (s[0] == '"' || s[0] == '`') && s[0] !in s[1..|s| - 1]
    then Some(s[1..|s| - 1])
    else None
  }

  /** The first index of `c` in `s`. */
  function IndexOf(s: string, c: char): (r: Option<nat>)
    ensures r.Some? ==> r.value < |s| && s[r.value] == c && c !in s[..r.value]
    ensures r.None? ==> c !in s
    decreases |s|
  {
    if |s| == 0 then None
    else if s[0] == c then Some(0)
    else match IndexOf(s[1..], c)
      case None => None
      case Some(i) => Some(i + 1)
  }

  /** strings.Split with a one-character separator. */
  function Split(s: string, c: char): (parts: seq<string>)
    ensures |parts| >= 1
    ensures forall i :: 0 <= i < |parts| ==> c !in parts[i]
    decreases |s|
  {
    match IndexOf(s, c)
    case None => [s]
    case Some(i) => [s[..i]] + Split(s[i + 1..], c)
  }

  /** strings.Join with a one-character separator. */
  function Join(parts: seq<string>, c: char): string
  {
    if |parts| == 0 then ""
    else if |parts| == 1 then parts[0]
    else parts[0] + [c] + Join(parts[1..], c)
  }

  /** strings.Join with an arbitrary separator. */
  function JoinWith(parts: seq<string>, sep: string): string
  {
    if |parts| == 0 then ""
    else if |parts| == 1 then parts[0]
    else parts[0] + sep + JoinWith(parts[1..], sep)
  }

  lemma {:induction false} IndexOfPrefix(a: string, c: char, b: string)
    requires c !in a
    ensures IndexOf(a + [c] + b, c) == Some(|a|)
    decreases |a|
  {
    if |a| > 0 {
      assert (a + [c] + b)[1..] == a[1..] + [c] + b;
      IndexOfPrefix(a[1..], c, b);
    }
  }

  /** Splitting what was joined gives back the parts. */
  lemma {:induction false} SplitJoin(parts: seq<string>, c: char)
    requires |parts| >= 1
    requires forall i :: 0 <= i < |parts| ==> c !in parts[i]
    ensures Split(Join(parts, c), c) == parts
  {
    if |parts| > 1 {
      var rest := Join(parts[1..], c);
      IndexOfPrefix(parts[0], c, rest);
      var s := parts[0] + [c] + rest;
      assert s[..|parts[0]|] == parts[0];
      assert s[|parts[0]| + 1..] == rest;
      SplitJoin(parts[1..], c);
      assert [parts[0]] + parts[1..] == parts;
    }
  }

  /** Joining what was split gives back the text. */
  lemma {:induction false} JoinSplit(s: string, c: char)
    ensures Join(Split(s, c), c) == s
    decreases |s|
  {
    match IndexOf(s, c)
    case None =>
    case Some(i) =>
      JoinSplit(s[i + 1..], c);
      var rest := Split(s[i + 1..], c);
      JoinCons(s[..i], rest, c);
      assert s == s[..i] + [c] + s[i + 1..];
  }

  /** Joining one more part in front puts the separator after it. */
  lemma JoinCons(p: string, rest: seq<string>, c: char)
    requires |rest| >= 1
    ensures Join([p] + rest, c) == p + [c] + Join(rest, c)
  {
    assert ([p] + rest)[1..] == rest;
  }

  /** strings.Cut with a one-character separator: (before, after, found). */
  function Cut(s: string, c: char): (r: (string, string, bool))
    ensures r.2 ==> s == r.0 + [c] + r.1 && c !in r.0
    ensures !r.2 ==> r.0 == s && r.1 == "" && c !in s
  {
    match IndexOf(s, c)
    case None => (s, "", false)
    case Some(i) =>
      assert s == s[..i] + [c] + s[i + 1..];
      (s[..i], s[i + 1..], true)
  }

  /** Cutting `a + [c] + b` at `c`, where `a` has no `c`, gives back `a` and `b`. */
  lemma CutAtFirst(a: string, b: string, c: char)
    requires c !in a
    ensures Cut(a + [c] + b, c) == (a, b, true)
  {
    var s := a + [c] + b;
    var r := Cut(s, c);
    assert c in s by {
      assert s[|a|] == c;
    }
    assert forall k :: 0 <= k < |r.0| ==> s[k] == r.0[k];
    assert forall k :: 0 <= k < |a| ==> s[k] == a[k];
    assert s[|a|] == c;
    assert s[|r.0|] == c;
    assert |r.0| == |a|;
    assert r.0 == s[..|a|] == a;
    assert r.1 == s[|a| + 1..] == b;
  }

  /** strings.ReplaceAll: leftmost, non-overlapping occurrences replaced. */
  function ReplaceAll(s: string, pat: string, repl: string): string
    requires |pat| > 0
    decreases |s|
  {
    if |s| < |pat| then s
    else if s[..|pat|] == pat then repl + ReplaceAll(s[|pat|..], pat, repl)
    else [s[0]] + ReplaceAll(s[1..], pat, repl)
  }

  /** strings.Replace(s, pat, repl, 1): the first occurrence replaced. */
  function ReplaceFirst(s: string, pat: string, repl: string): string
    requires |pat| > 0
    decreases |s|
  {
    if |s| < |pat| then s
    else if s[..|pat|] == pat then repl + s[|pat|..]
    else [s[0]] + ReplaceFirst(s[1..], pat, repl)
  }

  /** Replacing the first occurrence of a text that does not occur changes nothing. */
  lemma {:induction false} ReplaceFirstAbsent(s: string, pat: string, repl: string)
    requires |pat| > 0 && !Contains(s, pat)
    ensures ReplaceFirst(s, pat, repl) == s
    decreases |s|
  {
    if |s| >= |pat| {
      assert !HasPrefix(s, pat);
      ReplaceFirstAbsent(s[1..], pat, repl);
      assert [s[0]] + s[1..] == s;
    }
  }

  /** Replacing every one-character occurrence of `c` by text without `c` leaves no `c`. */
  lemma {:induction false} ReplaceAllRemoves(s: string, c: char, repl: string)
    requires c !in repl
    ensures c !in ReplaceAll(s, [c], repl)
    decreases |s|
  {
    if |s| >= 1 {
      ReplaceAllRemoves(s[1..], c, repl);
    }
  }

  /** Replacing a one-character text that does not occur changes nothing. */
  lemma {:induction false} ReplaceAllAbsent(s: string, c: char, repl: string)
    requires c !in s
    ensures ReplaceAll(s, [c], repl) == s
    decreases |s|
  {
    if |s| >= 1 {
      ReplaceAllAbsent(s[1..], c, repl);
      assert [s[0]] + s[1..] == s;
    }
  }

  lemma {:induction false} ReplaceAllConcat(a: string, b: string, c: char, repl: string)
    ensures ReplaceAll(a + b, [c], repl) == ReplaceAll(a, [c], repl) + ReplaceAll(b, [c], repl)
    decreases |a|
  {
    if |a| > 0 {
      assert (a + b)[1..] == a[1..] + b;
      assert (a + b)[..1] == a[..1];
      ReplaceAllConcat(a[1..], b, c, repl);
    } else {
      assert a + b == b;
    }
  }

  function UpperChar(c: char): char {
    if 'a' <= c <= 'z' then (c as int - 'a' as int + 'A' as int) as char else c
  }

  /** strings.ToUpper for ASCII letters. */
  function ToUpper(s: string): (r: string)
    ensures |r| == |s|
    ensures forall i :: 0 <= i < |s| ==> r[i] == UpperChar(s[i])
  {
    seq(|s|, i requires 0 <= i < |s| => UpperChar(s[i]))
  }

  function DigitChar(d: nat): char
    requires d < 10
  {
    ['0', '1', '2', '3', '4', '5', '6', '7', '8', '9'][d]
  }

  /** Decimal digits of a natural number. */
  function NatToString(n: nat): (r: string)
    ensures |r| > 0
    ensures forall i :: 0 <= i < |r| ==> '0' <= r[i] <= '9'
    ensures n > 0 ==> r[0] != '0'
  {
    if n < 10 then [DigitChar(n)] else NatToString(n / 10) + [DigitChar(n % 10)]
  }

  /** strconv.Itoa, which fmt's %d also produces. */
  function Itoa(n: int): (r: string)
    ensures |r| > 0
    ensures n >= 0 ==> AllDigits(r) && DigitsValue(r) == n
    ensures n < 0 ==> r[0] == '-' && AllDigits(r[1..]) && DigitsValue(r[1..]) == -n
    ensures r[0] == '0' ==> r == "0"
  {
    if n < 0 then
      DigitsOfNat(-n);
      var d := NatToString(-n);
      assert ("-" + d)[1..] == d;
      "-" + d
    else
      DigitsOfNat(n);
      NatToString(n)
  }

  predicate IsDigit(c: char) {
    '0' <= c <= '9'
  }

  predicate AllDigits(s: string) {
    forall i :: 0 <= i < |s| ==> IsDigit(s[i])
  }

  /** The value of a string of decimal digits, unbounded. */
  function DigitsValue(s: string): nat
    requires AllDigits(s)
  {
    if |s| == 0 then 0 else 10 * DigitsValue(s[..|s| - 1]) + (s[|s| - 1] as int - '0' as int)
  }

  /** The decimal digits of a number read back as that number. */
  lemma {:induction false} DigitsOfNat(n: nat)
    ensures AllDigits(NatToString(n))
    ensures DigitsValue(NatToString(n)) == n
  {
    var s := NatToString(n);
    if n >= 10 {
      DigitsOfNat(n / 10);
      assert s[..|s| - 1] == NatToString(n / 10);
      DigitValue(n % 10);
    } else {
      DigitValue(n);
      assert s[..0] == [];
    }
  }

  lemma DigitValue(d: nat)
    requires d < 10
    ensures DigitChar(d) as int - '0' as int == d
  {
  }

  /**
    Go's `<` on strings: byte-wise lexicographic order. Comparing characters by
    code point gives the same order as comparing their UTF-8 encodings.
  */
  predicate StrLess(a: string, b: string)
    decreases |a|
  {
    if |a| == 0 then |b| > 0
    else |b| > 0 && (a[0] < b[0] || (a[0] == b[0] && StrLess(a[1..], b[1..])))
  }

  lemma {:induction false} StrLessIrreflexive(a: string)
    ensures !StrLess(a, a)
    decreases |a|
  {
    if |a| > 0 {
      StrLessIrreflexive(a[1..]);
    }
  }

  lemma {:induction false} StrLessTransitive(a: string, b: string, c: string)
    requires StrLess(a, b) && StrLess(b, c)
    ensures StrLess(a, c)
    decreases |a|
  {
    if |a| > 0 && a[0] == b[0] && b[0] == c[0] {
      StrLessTransitive(a[1..], b[1..], c[1..]);
    }
  }

  lemma {:induction false} StrLessTotal(a: string, b: string)
    requires a != b
    ensures StrLess(a, b) || StrLess(b, a)
    decreases |a|
  {
    if |a| > 0 && |b| > 0 && a[0] == b[0] {
      assert a == [a[0]] + a[1..] && b == [b[0]] + b[1..];
      StrLessTotal(a[1..], b[1..]);
    }
  }

  /** Lexicographic order on pairs of strings, as the tools' two-key comparisons use it. */
  predicate PairLess(x: (string, string), y: (string, string)) {
    StrLess(x.0, y.0) || (x.0 == y.0 && StrLess(x.1, y.1))
  }

  lemma PairLessIrreflexive(x: (string, string))
    ensures !PairLess(x, x)
  {
    StrLessIrreflexive(x.0);
    StrLessIrreflexive(x.1);
  }

  lemma PairLessTransitive(x: (string, string), y: (string, string), z: (string, string))
    requires PairLess(x, y) && PairLess(y, z)
    ensures PairLess(x, z)
  {
    if StrLess(x.0, y.0) && StrLess(y.0, z.0) {
      StrLessTransitive(x.0, y.0, z.0);
    } else if x.0 == y.0 && y.0 == z.0 {
      StrLessTransitive(x.1, y.1, z.1);
    }
  }

  lemma PairLessTotal(x: (string, string), y: (string, string))
    requires x != y
    ensures PairLess(x, y) || PairLess(y, x)
  {
    if x.0 != y.0 {
      StrLessTotal(x.0, y.0);
    } else {
      StrLessTotal(x.1, y.1);
    }
  }

  /** The pair order is a strict total order. */
  lemma PairLessOrder()
    ensures StrictTotalOrder((x: (string, string), y: (string, string)) => PairLess(x, y))
  {
    forall x: (string, string) ensures !PairLess(x, x) {
      PairLessIrreflexive(x);
    }
    forall x: (string, string), y: (string, string), z: (string, string) | PairLess(x, y) && PairLess(y, z)
      ensures PairLess(x, z)
    {
      PairLessTransitive(x, y, z);
    }
    forall x: (string, string), y: (string, string) | x != y
      ensures PairLess(x, y) || PairLess(y, x)
    {
      PairLessTotal(x, y);
    }
  }
}
