/** The few java.lang.String operations the modelled code relies on, stated
    over sequences: ASCII case folding, `trim`, `contains`, `startsWith`,
    `split` with Java's treatment of trailing empty fields, joining, and
    decimal rendering of integers. */
module JavaStrings {

  datatype Option<T> = None | Some(value: T)

  /** `Character.toLowerCase` restricted to ASCII. */
  function LowerChar(c: char): char {
    if 'A' <= c <= 'Z' then (c as int + 32) as char else c
  }

  /** `Character.toUpperCase` restricted to ASCII. */
  function UpperChar(c: char): char {
    if 'a' <= c <= 'z' then (c as int - 32) as char else c
  }

  function Lower(s: string): (r: string)
    ensures |r| == |s|
    ensures forall i :: 0 <= i < |s| ==> r[i] == LowerChar(s[i])
  {
    seq(|s|, i requires 0 <= i < |s| => LowerChar(s[i]))
  }

  function Upper(s: string): (r: string)
    ensures |r| == |s|
    ensures forall i :: 0 <= i < |s| ==> r[i] == UpperChar(s[i])
  {
    seq(|s|, i requires 0 <= i < |s| => UpperChar(s[i]))
  }

  lemma LowerAppend(a: string, b: string)
    ensures Lower(a + b) == Lower(a) + Lower(b)
  {
    assert |Lower(a + b)| == |Lower(a) + Lower(b)|;
  }

  /** `String.equalsIgnoreCase` restricted to ASCII. */
  predicate EqualsIgnoreCase(a: string, b: string) {
    Lower(a) == Lower(b)
  }

  predicate StartsWith<T(==)>(s: seq<T>, prefix: seq<T>) {
    |prefix| <= |s| && s[..|prefix|] == prefix
  }

  /** `String.contains`: `part` occurs at some offset of `s`. */
  predicate Contains<T(==)>(s: seq<T>, part: seq<T>) {
    exists i :: 0 <= i <= |s| - |part| && OccursAt(s, part, i)
  }

  predicate OccursAt<T(==)>(s: seq<T>, part: seq<T>, i: int)
    requires 0 <= i <= |s| - |part|
  {
    s[i..i + |part|] == part
  }

  lemma ContainsSuffix<T>(s: seq<T>, t: seq<T>)
    ensures Contains(s + t, t)
  {
    assert OccursAt(s + t, t, |s|);
  }

  lemma ContainsPrefix<T>(s: seq<T>, t: seq<T>)
    ensures Contains(t + s, t)
  {
    assert OccursAt(t + s, t, 0);
  }

  /** `String.trim`: drops every leading and trailing char at or below U+0020. */
  function Trim(s: string): (r: string)
    ensures |r| <= |s|
    ensures r != [] ==> r[0] > ' ' && r[|r| - 1] > ' '
  {
    TrimEnd(TrimStart(s))
  }

  function TrimStart(s: string): (r: string)
    ensures r != [] ==> r[0] > ' '
    ensures |r| <= |s| && r == s[|s| - |r|..]
  {
    if s != [] && s[0] <= ' ' then TrimStart(s[1..]) else s
  }

  function TrimEnd(s: string): (r: string)
    ensures r != [] ==> r[|r| - 1] > ' '
    ensures |r| <= |s| && r == s[..|r|]
    ensures s != [] && s[0] > ' ' ==> r != [] && r[0] == s[0]
  {
    if s != [] && s[|s| - 1] <= ' ' then TrimEnd(s[..|s| - 1]) else s
  }

  predicate AllBlank(s: string) {
    forall i :: 0 <= i < |s| ==> s[i] <= ' '
  }

  lemma {:induction false} TrimStartSkips(pre: string, s: string)
    requires AllBlank(pre) && s != [] && s[0] > ' '
    ensures TrimStart(pre + s) == s
  {
    if pre != [] {
      assert (pre + s)[1..] == pre[1..] + s;
      TrimStartSkips(pre[1..], s);
    } else {
      assert pre + s == s;
    }
  }

  lemma {:induction false} TrimEndSkips(s: string, post: string)
    requires AllBlank(post) && s != [] && s[|s| - 1] > ' '
    ensures TrimEnd(s + post) == s
    decreases |post|
  {
    if post != [] {
      var shorter := post[..|post| - 1];
      assert (s + post)[..|s + post| - 1] == s + shorter;
      TrimEndSkips(s, shorter);
    } else {
      assert s + post == s;
    }
  }

  /** `trim` removes any run of blanks around a text that neither starts
      nor ends with one. */
  lemma TrimPadded(pre: string, s: string, post: string)
    requires AllBlank(pre) && AllBlank(post)
    requires s != [] && s[0] > ' ' && s[|s| - 1] > ' '
    ensures Trim(pre + s + post) == s
  {
    assert pre + s + post == pre + (s + post);
    TrimStartSkips(pre, s + post);
    TrimEndSkips(s, post);
  }

  /** Every field between separators, empty ones included (`split` with a
      negative limit). */
  function SplitAll<T(==)>(s: seq<T>, sep: T): (r: seq<seq<T>>)
    ensures |r| >= 1
    ensures forall i :: 0 <= i < |r| ==> sep !in r[i]
  {
    if s == [] then [[]]
    else if s[0] == sep then [[]] + SplitAll(s[1..], sep)
    else
      var rest := SplitAll(s[1..], sep);
      [[s[0]] + rest[0]] + rest[1..]
  }

  function DropTrailingEmpty<T>(parts: seq<seq<T>>): (r: seq<seq<T>>)
    ensures |r| <= |parts| && r == parts[..|r|]
    ensures r != [] ==> r[|r| - 1] != []
    ensures forall k :: |r| <= k < |parts| ==> parts[k] == []
  {
    if parts == [] || parts[|parts| - 1] != [] then parts
    else DropTrailingEmpty(parts[..|parts| - 1])
  }

  /** `String.split(sep)` for a single-character separator: an input without
      the separator comes back whole (so "" gives [""]); otherwise the fields,
      with trailing empty fields removed. */
  function Split<T(==)>(s: seq<T>, sep: T): seq<seq<T>> {
    if sep !in s then [s] else DropTrailingEmpty(SplitAll(s, sep))
  }

  /** `String.split(sep, 2)`: the text before the first separator, and the
      rest after it when there is a separator. */
  function SplitFirst<T(==)>(s: seq<T>, sep: T): (r: (seq<T>, Option<seq<T>>))
    ensures sep !in r.0
    ensures r.1.None? <==> sep !in s
    ensures r.1.None? ==> r.0 == s
    ensures r.1.Some? ==> s == r.0 + [sep] + r.1.value
  {
    if s == [] then ([], None)
    else if s[0] == sep then ([], Some(s[1..]))
    else
      var (head, tail) := SplitFirst(s[1..], sep);
      ([s[0]] + head, tail)
  }

  /** Joins non-empty `parts` with `sep` between consecutive parts. */
  function Join<T>(parts: seq<seq<T>>, sep: T): seq<T>
    requires |parts| >= 1
  {
    if |parts| == 1 then parts[0] else parts[0] + [sep] + Join(parts[1..], sep)
  }

  lemma {:induction false} SplitAllNoSep<T>(s: seq<T>, sep: T)
    requires sep !in s
    ensures SplitAll(s, sep) == [s]
  {
    if s != [] {
      SplitAllNoSep(s[1..], sep);
      assert [s[0]] + s[1..] == s;
    }
  }

  lemma {:induction false} SplitAllAfterField<T>(p: seq<T>, sep: T, rest: seq<T>)
    requires sep !in p
    ensures SplitAll(p + [sep] + rest, sep) == [p] + SplitAll(rest, sep)
  {
    if p == [] {
      assert p + [sep] + rest == [sep] + rest;
    } else {
      var whole := p + [sep] + rest;
      assert whole[0] == p[0] && whole[1..] == p[1..] + [sep] + rest;
      SplitAllAfterField(p[1..], sep, rest);
      assert [p[0]] + p[1..] == p;
    }
  }

  /** Splitting a join of separator-free parts gives back every part. */
  lemma {:induction false} SplitAllJoin<T>(parts: seq<seq<T>>, sep: T)
    requires |parts| >= 1
    requires forall i :: 0 <= i < |parts| ==> sep !in parts[i]
    ensures SplitAll(Join(parts, sep), sep) == parts
  {
    if |parts| == 1 {
      SplitAllNoSep(parts[0], sep);
    } else {
      SplitAllJoin(parts[1..], sep);
      SplitAllAfterField(parts[0], sep, Join(parts[1..], sep));
      assert parts == [parts[0]] + parts[1..];
    }
  }

  lemma {:induction false} JoinContainsSep<T>(parts: seq<seq<T>>, sep: T)
    requires |parts| >= 1
    ensures sep in Join(parts, sep) <==> |parts| > 1 || sep in parts[0]
  {
    if |parts| > 1 {
      assert Join(parts, sep)[|parts[0]|] == sep;
    }
  }

  /** `split` undoes a join of non-empty, separator-free parts. */
  lemma SplitJoin<T>(parts: seq<seq<T>>, sep: T)
    requires |parts| >= 1
    requires forall i :: 0 <= i < |parts| ==> parts[i] != [] && sep !in parts[i]
    ensures Split(Join(parts, sep), sep) == parts
  {
    JoinContainsSep(parts, sep);
    if |parts| > 1 {
      SplitAllJoin(parts, sep);
    }
  }

  /** `s` with every occurrence of `c` removed (`String.replace` with an
      empty replacement). */
  function RemoveAll(s: string, c: char): (r: string)
    ensures c !in r
    ensures |r| <= |s|
    ensures forall x :: x != c ==> (x in r <==> x in s)
  {
    if s == [] then []
    else if s[0] == c then RemoveAll(s[1..], c)
    else [s[0]] + RemoveAll(s[1..], c)
  }

  function Occurrences(s: string, c: char): nat {
    if s == [] then 0 else (if s[0] == c then 1 else 0) + Occurrences(s[1..], c)
  }

  lemma {:induction false} RemoveAllLength(s: string, c: char)
    ensures |RemoveAll(s, c)| == |s| - Occurrences(s, c)
  {
    if s != [] {
      RemoveAllLength(s[1..], c);
    }
  }

  function DigitChar(d: nat): char
    requires d < 10
  {
    "0123456789"[d]
  }

  function NatToString(n: nat): (r: string)
    ensures |r| >= 1
    ensures forall i :: 0 <= i < |r| ==> '0' <= r[i] <= '9'
    decreases n
  {
    if n < 10 then [DigitChar(n)] else NatToString(n / 10) + [DigitChar(n % 10)]
  }

  /** Decimal rendering as `Integer.toString`/`Long.toString` produce it. */
  function IntToString(n: int): (r: string)
    ensures |r| >= 1
    ensures n >= 0 ==> r[0] != '-'
    ensures n < 0 ==> r[0] == '-'
    ensures forall i :: 0 <= i < |r| ==> r[i] == '-' || '0' <= r[i] <= '9'
  {
    if n < 0 then "-" + NatToString(-n) else NatToString(n)
  }
}
