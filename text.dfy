/** String operations the core relies on, written with the semantics of the
    Java and Python library calls they stand for: `indexOf`, `contains`,
    `endsWith`, `split`, `replace`, `strip`, `toLowerCase` and decimal
    rendering of integers. */
module Text {

  datatype Option<+T> = None | Some(value: T)

  datatype Result<+T, +E> = Ok(value: T) | Err(error: E)

  /** `p` occurs in `s` starting at index `k`. */
  predicate OccursAt(s: string, p: string, k: int)
  {
    0 <= k && k + |p| <= |s| && s[k..k + |p|] == p
  }

  /** First index at or after `k` where `p` occurs in `s`, or -1. */
  function IndexOfFrom(s: string, p: string, k: nat): (r: int)
    decreases |s| - k
    ensures r == -1 || (k <= r && OccursAt(s, p, r))
    ensures r == -1 ==> forall j :: k <= j ==> !OccursAt(s, p, j)
    ensures r >= 0 ==> forall j :: k <= j < r ==> !OccursAt(s, p, j)
  {
    if k + |p| > |s| then -1
    else if s[k..k + |p|] == p then k
    else IndexOfFrom(s, p, k + 1)
  }

  /** Java's `s.indexOf(p)`: the first index of `p` in `s`, or -1. */
  function IndexOf(s: string, p: string): (r: int)
    ensures r == -1 || OccursAt(s, p, r)
    ensures r == -1 <==> forall j :: !OccursAt(s, p, j)
    ensures forall j :: 0 <= j < r ==> !OccursAt(s, p, j)
  {
    IndexOfFrom(s, p, 0)
  }

  /** Java's `s.contains(p)` and Python's `p in s`. */
  predicate Contains(s: string, p: string)
  {
    IndexOf(s, p) >= 0
  }

  predicate StartsWith(s: string, prefix: string)
  {
    |prefix| <= |s| && s[..|prefix|] == prefix
  }

  predicate EndsWith(s: string, suffix: string)
  {
    |suffix| <= |s| && s[|s| - |suffix|..] == suffix
  }

  /** An occurrence at `i` with none before it is the first one. */
  lemma IndexOfIs(s: string, p: string, i: int)
    requires OccursAt(s, p, i)
    requires forall j :: 0 <= j < i ==> !OccursAt(s, p, j)
    ensures IndexOf(s, p) == i
  {
  }

  /** Windows that lie wholly inside `t` read the same in `t + u`. */
  lemma OccursAtConcat(t: string, u: string, p: string, j: int)
    requires 0 <= j && j + |p| <= |t|
    ensures OccursAt(t + u, p, j) <==> OccursAt(t, p, j)
  {
    assert (t + u)[j..j + |p|] == t[j..j + |p|];
  }

  /** Appending text never moves a first occurrence that is already there. */
  lemma IndexOfExtend(t: string, u: string, p: string)
    requires IndexOf(t, p) >= 0
    ensures IndexOf(t + u, p) == IndexOf(t, p)
  {
    var i := IndexOf(t, p);
    OccursAtConcat(t, u, p, i);
    forall j | 0 <= j < i
      ensures !OccursAt(t + u, p, j)
    {
      OccursAtConcat(t, u, p, j);
    }
    IndexOfIs(t + u, p, i);
  }

  /** Cutting text after a first occurrence keeps it the first occurrence. */
  lemma IndexOfPrefix(t: string, u: string, p: string)
    requires IndexOf(t + u, p) >= 0
    requires IndexOf(t + u, p) + |p| <= |t|
    ensures IndexOf(t, p) == IndexOf(t + u, p)
  {
    var i := IndexOf(t + u, p);
    OccursAtConcat(t, u, p, i);
    forall j | 0 <= j < i
      ensures !OccursAt(t, p, j)
    {
      OccursAtConcat(t, u, p, j);
    }
    IndexOfIs(t, p, i);
  }

  // ---------------------------------------------------------------------
  // Splitting and joining on a separator string (Python's `str.split(sep)`)
  // ---------------------------------------------------------------------

  /** Python's `s.split(sep)` for a non-empty separator: cut at every
      non-overlapping occurrence, scanning from the left; empty pieces are
      kept. */
  function PySplit(s: string, sep: string): (r: seq<string>)
    requires |sep| > 0
    decreases |s|
    ensures |r| >= 1
  {
    var i := IndexOf(s, sep);
    if i < 0 then [s] else [s[..i]] + PySplit(s[i + |sep|..], sep)
  }

  /** Glue `parts` together with `sep` between neighbours. */
  function Join(parts: seq<string>, sep: string): string
  {
    if |parts| == 0 then ""
    else if |parts| == 1 then parts[0]
    else parts[0] + sep + Join(parts[1..], sep)
  }

  /** In `p + sep`, the first occurrence of `sep` is the appended one: `p`
      does not contain `sep`, and no tail of `p` completes a `sep` early. */
  predicate Delimited(p: string, sep: string)
  {
    IndexOf(p + sep, sep) == |p|
  }

  /** The lists of pieces that `PySplit` can produce: every piece but the
      last is delimited by the separator, and the last one holds none. */
  predicate Splittable(parts: seq<string>, sep: string)
  {
    && |parts| >= 1
    && (forall k :: 0 <= k < |parts| - 1 ==> Delimited(parts[k], sep))
    && IndexOf(parts[|parts| - 1], sep) == -1
  }

  /** A delimited piece on its own holds no separator. */
  lemma DelimitedHasNone(p: string, sep: string)
    requires |sep| > 0
    requires Delimited(p, sep)
    ensures IndexOf(p, sep) == -1
  {
    if IndexOf(p, sep) >= 0 {
      IndexOfExtend(p, sep, sep);
    }
  }

  /** The head of a split is delimited, and the text is head, separator,
      tail. */
  lemma SplitHead(s: string, sep: string)
    requires IndexOf(s, sep) >= 0
    ensures var i := IndexOf(s, sep);
      s == s[..i] + sep + s[i + |sep|..] && Delimited(s[..i], sep)
  {
    var i := IndexOf(s, sep);
    var head, tail := s[..i], s[i + |sep|..];
    assert s == (head + sep) + tail;
    IndexOfPrefix(head + sep, tail, sep);
  }

  /** A delimited piece in front of splittable pieces keeps them splittable. */
  lemma ConsSplittable(head: string, rest: seq<string>, sep: string)
    requires Delimited(head, sep) && Splittable(rest, sep)
    ensures Splittable([head] + rest, sep)
    ensures Join([head] + rest, sep) == head + sep + Join(rest, sep)
  {
    var r := [head] + rest;
    assert r[1..] == rest;
    forall k | 0 <= k < |r| - 1
      ensures Delimited(r[k], sep)
    {
      if k > 0 {
        assert r[k] == rest[k - 1];
      }
    }
  }

  /** Joining the pieces of a split gives the text back, and the pieces are
      always splittable. */
  lemma {:induction false} JoinSplit(s: string, sep: string)
    requires |sep| > 0
    ensures Join(PySplit(s, sep), sep) == s
    ensures Splittable(PySplit(s, sep), sep)
    decreases |s|
  {
    var i := IndexOf(s, sep);
    if i >= 0 {
      var tail := s[i + |sep|..];
      JoinSplit(tail, sep);
      SplitHead(s, sep);
      ConsSplittable(s[..i], PySplit(tail, sep), sep);
    }
  }

  /** Splitting joined pieces gives the pieces back, provided they are
      splittable (the converse of `JoinSplit`). */
  lemma {:induction false} SplitJoin(parts: seq<string>, sep: string)
    requires |sep| > 0
    requires Splittable(parts, sep)
    ensures PySplit(Join(parts, sep), sep) == parts
    decreases |parts|
  {
    if |parts| > 1 {
      var head, rest := parts[0], parts[1..];
      SplittableTail(parts, sep);
      SplitJoin(rest, sep);
      assert Join(parts, sep) == head + sep + Join(rest, sep);
      SplitDelimitedHead(head, Join(rest, sep), sep);
      assert parts == [head] + rest;
    }
  }

  /** Dropping the first of several splittable pieces keeps them splittable. */
  lemma SplittableTail(parts: seq<string>, sep: string)
    requires |parts| > 1 && Splittable(parts, sep)
    ensures Splittable(parts[1..], sep)
  {
    var rest := parts[1..];
    forall k | 0 <= k < |rest| - 1
      ensures Delimited(rest[k], sep)
    {
      assert rest[k] == parts[k + 1];
    }
  }

  /** A split of text that starts with a delimited piece and the separator
      cuts that piece off first. */
  lemma SplitDelimitedHead(head: string, tail: string, sep: string)
    requires |sep| > 0 && Delimited(head, sep)
    ensures PySplit(head + sep + tail, sep) == [head] + PySplit(tail, sep)
  {
    var s := head + sep + tail;
    assert s == (head + sep) + tail;
    IndexOfExtend(head + sep, tail, sep);
    assert s[..|head|] == head;
    assert s[|head| + |sep|..] == tail;
  }

  // ---------------------------------------------------------------------
  // Java's `String.split(regex)` for a one-character literal regex
  // ---------------------------------------------------------------------

  /** Drop the empty strings at the end of a list, as Java's `split` does. */
  function DropTrailingEmpty(ps: seq<string>): (r: seq<string>)
    ensures |r| <= |ps| && r == ps[..|r|]
    ensures r == [] || r[|r| - 1] != ""
    ensures forall k :: |r| <= k < |ps| ==> ps[k] == ""
  {
    if |ps| > 0 && ps[|ps| - 1] == "" then DropTrailingEmpty(ps[..|ps| - 1]) else ps
  }

  /** Java's `s.split(c)` where `c` is a character without regex meaning
      (or escaped): when `c` does not occur the result is `[s]` (so `""`
      gives `[""]`); otherwise the pieces between occurrences with the
      trailing empty ones removed (so `","` split on `,` gives `[]`). */
  function JavaSplit(s: string, c: char): seq<string>
  {
    if IndexOf(s, [c]) < 0 then [s] else DropTrailingEmpty(PySplit(s, [c]))
  }

  /** Java's `s.replace(String.valueOf(c), "")`: every `c` removed. */
  function RemoveChar(s: string, c: char): (r: string)
    ensures c !in r
    ensures forall x :: x in r <==> x in s && x != c
    ensures |r| <= |s|
  {
    if s == [] then []
    else if s[0] == c then RemoveChar(s[1..], c)
    else [s[0]] + RemoveChar(s[1..], c)
  }

  /** Removing a character that does not occur changes nothing. */
  lemma {:induction false} RemoveCharAbsent(s: string, c: char)
    requires c !in s
    ensures RemoveChar(s, c) == s
  {
    if s != [] {
      assert c !in s[1..];
      RemoveCharAbsent(s[1..], c);
    }
  }

  /** Removal works on each part of a concatenation separately. */
  lemma {:induction false} RemoveCharAppend(a: string, b: string, c: char)
    ensures RemoveChar(a + b, c) == RemoveChar(a, c) + RemoveChar(b, c)
  {
    if a == [] {
      assert a + b == b;
    } else {
      assert (a + b)[0] == a[0] && (a + b)[1..] == a[1..] + b;
      RemoveCharAppend(a[1..], b, c);
    }
  }

  // ---------------------------------------------------------------------
  // Python's `str.strip()` with no argument
  // ---------------------------------------------------------------------

  /** The characters for which Python's `str.isspace()` holds. */
  predicate IsSpace(c: char)
  {
    || c == ' ' || c == '\t' || c == '\n' || c == '\r'
    || c == '\U{000B}' || c == '\U{000C}'
    || ('\U{001C}' <= c <= '\U{001F}')
    || c == '\U{0085}' || c == '\U{00A0}' || c == '\U{1680}'
    || ('\U{2000}' <= c <= '\U{200A}')
    || c == '\U{2028}' || c == '\U{2029}' || c == '\U{202F}'
    || c == '\U{205F}' || c == '\U{3000}'
  }

  /** `s` neither starts nor ends with whitespace. */
  predicate Stripped(s: string)
  {
    s == [] || (!IsSpace(s[0]) && !IsSpace(s[|s| - 1]))
  }

  /** `s.lstrip()`: the suffix of `s` left after its leading whitespace. */
  function TrimStart(s: string): (r: string)
    ensures |r| <= |s| && r == s[|s| - |r|..]
    ensures forall i :: 0 <= i < |s| - |r| ==> IsSpace(s[i])
    ensures r == [] || !IsSpace(r[0])
  {
    if |s| > 0 && IsSpace(s[0]) then
      var r := TrimStart(s[1..]);
      assert s[1..][|s| - 1 - |r|..] == s[|s| - |r|..];
      assert forall i :: 1 <= i < |s| ==> s[1..][i - 1] == s[i];
      r
    else s
  }

  /** `s.rstrip()`: the prefix of `s` left before its trailing whitespace. */
  function TrimEnd(s: string): (r: string)
    ensures |r| <= |s| && r == s[..|r|]
    ensures forall i :: |r| <= i < |s| ==> IsSpace(s[i])
    ensures r == [] || !IsSpace(r[|r| - 1])
  {
    if |s| > 0 && IsSpace(s[|s| - 1]) then
      var r := TrimEnd(s[..|s| - 1]);
      assert s[..|s| - 1][..|r|] == s[..|r|];
      assert forall i :: 0 <= i < |s| - 1 ==> s[..|s| - 1][i] == s[i];
      r
    else s
  }

  /** Python's `s.strip()`. The result is stripped, and a stripped string is
      its own strip (so stripping twice changes nothing). */
  function Strip(s: string): (r: string)
    ensures Stripped(r)
    ensures Stripped(s) ==> r == s
  {
    TrimsStrip(s);
    StrippedTrims(s);
    TrimEnd(TrimStart(s))
  }

  /** Trimming both ends leaves no whitespace at either end. */
  lemma TrimsStrip(s: string)
    ensures Stripped(TrimEnd(TrimStart(s)))
  {
    var t := TrimStart(s);
    var r := TrimEnd(t);
    if r != [] {
      assert r[0] == t[0];
      assert !IsSpace(r[0]);
    }
  }

  /** Trimming a stripped string changes nothing. */
  lemma StrippedTrims(s: string)
    ensures Stripped(s) ==> TrimStart(s) == s && TrimEnd(s) == s
  {
  }

  // ---------------------------------------------------------------------
  // Case and numbers
  // ---------------------------------------------------------------------

  function ToLowerChar(c: char): char
  {
    if 'A' <= c <= 'Z' then (c as int + 32) as char else c
  }

  /** Lower-casing of the ASCII letters; every other character is kept. */
  function ToLowerAscii(s: string): (r: string)
    ensures |r| == |s|
    ensures forall i :: 0 <= i < |s| ==> r[i] == ToLowerChar(s[i])
  {
    if s == [] then [] else [ToLowerChar(s[0])] + ToLowerAscii(s[1..])
  }

  function DigitChar(d: nat): char
    requires d < 10
  {
    ('0' as int + d) as char
  }

  /** Decimal digits of `n`, most significant first, as Java prints them. */
  function NatToString(n: nat): (r: string)
    ensures |r| >= 1
    ensures forall i :: 0 <= i < |r| ==> '0' <= r[i] <= '9'
  {
    if n < 10 then [DigitChar(n)] else NatToString(n / 10) + [DigitChar(n % 10)]
  }

  /** Java's `Integer.toString(i)` / string concatenation of an int. */
  function IntToString(i: int): string
  {
    if i < 0 then "-" + NatToString(-i) else NatToString(i)
  }

  /** The value of a string of decimal digits. */
  function DigitsValue(s: string): int
  {
    if s == [] then 0 else DigitsValue(s[..|s| - 1]) * 10 + (s[|s| - 1] as int - '0' as int)
  }

  /** Reading the printed digits back gives the number. */
  lemma {:induction false} DigitsValueOfNatToString(n: nat)
    ensures DigitsValue(NatToString(n)) == n
  {
    if n >= 10 {
      DigitsValueOfNatToString(n / 10);
      var s := NatToString(n);
      assert s[..|s| - 1] == NatToString(n / 10);
    }
  }

  // ---------------------------------------------------------------------
  // Prompts built by appending one block per element
  // ---------------------------------------------------------------------

  /** The blocks `f` gives for the elements of `xs`, one after the other. */
  function ConcatMap<T>(f: T -> string, xs: seq<T>): string
  {
    if xs == [] then "" else ConcatMap(f, xs[..|xs| - 1]) + f(xs[|xs| - 1])
  }

  /** One more element adds its block at the end. */
  lemma ConcatMapLast<T>(f: T -> string, xs: seq<T>, x: T)
    ensures ConcatMap(f, xs + [x]) == ConcatMap(f, xs) + f(x)
  {
    assert (xs + [x])[..|xs|] == xs;
  }

  /** The blocks of two runs are the blocks of each, one after the other. */
  lemma {:induction false} ConcatMapAppend<T>(f: T -> string, a: seq<T>, b: seq<T>)
    ensures ConcatMap(f, a + b) == ConcatMap(f, a) + ConcatMap(f, b)
    decreases |b|
  {
    if b == [] {
      assert a + b == a;
    } else {
      var init, last := b[..|b| - 1], b[|b| - 1];
      ConcatMapAppend(f, a, init);
      assert b == init + [last];
      assert a + b == (a + init) + [last];
      ConcatMapLast(f, a + init, last);
      ConcatMapLast(f, init, last);
      var x, y, z := ConcatMap(f, a), ConcatMap(f, init), f(last);
      assert (x + y) + z == x + (y + z);
    }
  }

  /** The block of the `i`-th element sits between the blocks of the
      elements before it and those after it. */
  lemma ConcatMapAt<T>(f: T -> string, xs: seq<T>, i: int)
    requires 0 <= i < |xs|
    ensures ConcatMap(f, xs) == ConcatMap(f, xs[..i]) + f(xs[i]) + ConcatMap(f, xs[i + 1..])
  {
    var front, back := xs[..i + 1], xs[i + 1..];
    PrefixSnoc(xs, i);
    PrefixSuffix(xs, i + 1);
    ConcatMapAppend(f, front, back);
    ConcatMapLast(f, xs[..i], xs[i]);
    calc {
      ConcatMap(f, xs);
      ConcatMap(f, front + back);
      ConcatMap(f, front) + ConcatMap(f, back);
      ConcatMap(f, xs[..i] + [xs[i]]) + ConcatMap(f, back);
      ConcatMap(f, xs[..i]) + f(xs[i]) + ConcatMap(f, back);
    }
  }

  /** A sequence is its prefix followed by the rest. */
  lemma PrefixSuffix<T>(xs: seq<T>, k: int)
    requires 0 <= k <= |xs|
    ensures xs == xs[..k] + xs[k..]
  {
  }

  /** A prefix one longer is the prefix and the next element. */
  lemma PrefixSnoc<T>(xs: seq<T>, i: int)
    requires 0 <= i < |xs|
    ensures xs[..i + 1] == xs[..i] + [xs[i]]
  {
  }

  /** Concatenation may be regrouped. */
  lemma Regroup<T>(a: seq<T>, b: seq<T>, c: seq<T>)
    ensures a + b + c == a + (b + c)
  {
  }

  /** The elements of `xs` that satisfy `p`, in their order: the shape of
      every derived repository query. */
  function Filter<T(!new)>(xs: seq<T>, p: T -> bool): (r: seq<T>)
    ensures |r| <= |xs|
    ensures forall x :: x in r <==> x in xs && p(x)
  {
    if xs == [] then []
    else
      var init := Filter(xs[..|xs| - 1], p);
      var last := xs[|xs| - 1];
      assert xs == xs[..|xs| - 1] + [last];
      if p(last) then init + [last] else init
  }
}
