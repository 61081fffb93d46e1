/**
 * Text and path helpers with the semantics of the .NET calls the library
 * uses: ordinal ASCII case folding, String.Split/Join, TrimEnd, decimal
 * integer rendering and parsing, and Path.Combine on Windows.
 */
module Strings {
  import opened Wrappers

  // ---------------------------------------------------------------------
  // Case folding (ToLowerInvariant restricted to ASCII)

  function LowerChar(c: char): char
  {
    if 'A' <= c <= 'Z' then (c as int + 32) as char else c
  }

  function Lower(s: string): (r: string)
    ensures |r| == |s|
    ensures forall i :: 0 <= i < |s| ==> r[i] == LowerChar(s[i])
  {
    seq(|s|, i requires 0 <= i < |s| => LowerChar(s[i]))
  }

  lemma LowerConcat(a: string, b: string)
    ensures Lower(a + b) == Lower(a) + Lower(b)
  {
    assert forall i :: 0 <= i < |a + b| ==> Lower(a + b)[i] == (Lower(a) + Lower(b))[i];
  }

  lemma LowerIdempotent(s: string)
    ensures Lower(Lower(s)) == Lower(s)
  {
    assert forall i :: 0 <= i < |s| ==> Lower(Lower(s))[i] == Lower(s)[i];
  }

  /** Characters that case folding leaves alone stay out of a folded text. */
  lemma LowerKeepsOut(s: string, c: char)
    requires !('A' <= c <= 'Z') && !('a' <= c <= 'z')
    ensures c in Lower(s) <==> c in s
  {
    if c in Lower(s) {
      var i :| 0 <= i < |s| && Lower(s)[i] == c;
      assert s[i] == c;
    }
    if c in s {
      var i :| 0 <= i < |s| && s[i] == c;
      assert Lower(s)[i] == c;
    }
  }

  /** A text without upper-case letters is its own lower-case form. */
  lemma LowerNoUpper(s: string)
    requires forall i :: 0 <= i < |s| ==> !('A' <= s[i] <= 'Z')
    ensures Lower(s) == s
  {
    assert forall i :: 0 <= i < |s| ==> Lower(s)[i] == s[i];
  }

  predicate EqualsIgnoreCase(a: string, b: string)
  {
    Lower(a) == Lower(b)
  }

  // ---------------------------------------------------------------------
  // Prefixes and suffixes (ordinal)

  predicate StartsWith(s: string, p: string)
  {
    |p| <= |s| && s[..|p|] == p
  }

  predicate EndsWith(s: string, p: string)
  {
    |p| <= |s| && s[|s| - |p|..] == p
  }

  predicate StartsWithIgnoreCase(s: string, p: string)
  {
    StartsWith(Lower(s), Lower(p))
  }

  /** A case-insensitive prefix can be swapped in for the text it matches. */
  lemma StartsWithIgnoreCaseSplit(s: string, p: string)
    requires StartsWithIgnoreCase(s, p)
    ensures EqualsIgnoreCase(s, p + s[|p|..])
  {
    LowerConcat(p, s[|p|..]);
    assert s == s[..|p|] + s[|p|..];
    LowerConcat(s[..|p|], s[|p|..]);
    assert Lower(s[..|p|]) == Lower(s)[..|p|];
  }

  /** A case-insensitive prefix of s gives its own prefixes. */
  lemma StartsWithIgnoreCasePrefix(s: string, p: string, q: string)
    requires StartsWithIgnoreCase(s, p + q)
    ensures StartsWithIgnoreCase(s, p)
  {
    LowerConcat(p, q);
    assert Lower(s)[..|p|] == (Lower(p) + Lower(q))[..|p|];
  }

  predicate EndsWithIgnoreCase(s: string, p: string)
  {
    EndsWith(Lower(s), Lower(p))
  }

  lemma StartsWithConcat(p: string, rest: string)
    ensures StartsWith(p + rest, p)
  {
    assert (p + rest)[..|p|] == p;
  }

  lemma EndsWithConcat(a: string, b: string, suffix: string)
    requires |suffix| <= |b|
    ensures EndsWith(a + b, suffix) <==> EndsWith(b, suffix)
  {
    assert (a + b)[|a + b| - |suffix|..] == b[|b| - |suffix|..];
  }

  // ---------------------------------------------------------------------
  // Splitting and joining on separator characters

  predicate NoneOf(s: string, seps: set<char>)
  {
    forall i :: 0 <= i < |s| ==> s[i] !in seps
  }

  function IndexOfAny(s: string, seps: set<char>): (i: nat)
    requires !NoneOf(s, seps)
    ensures i < |s| && s[i] in seps && NoneOf(s[..i], seps)
  {
    if s[0] in seps then 0 else 1 + IndexOfAny(s[1..], seps)
  }

  /** String.Split(params char[]): every separator ends a field, empty fields are kept. */
  function Split(s: string, seps: set<char>): (parts: seq<string>)
    ensures |parts| >= 1
    ensures forall k :: 0 <= k < |parts| ==> NoneOf(parts[k], seps)
    decreases |s|
  {
    if NoneOf(s, seps) then [s]
    else
      var i := IndexOfAny(s, seps);
      [s[..i]] + Split(s[i + 1..], seps)
  }

  /** Three plain fields joined by separators split back into those fields. */
  lemma SplitFields3(k: string, v: string, c: string, x: char, seps: set<char>)
    requires x in seps && NoneOf(k, seps) && NoneOf(v, seps) && NoneOf(c, seps)
    ensures Split(k + [x] + (v + [x] + c), seps) == [k, v, c]
  {
    SplitNone(c, seps);
    SplitCons(v, x, c, seps);
    SplitCons(k, x, v + [x] + c, seps);
    assert [k] + ([v] + [c]) == [k, v, c];
  }

  /** String.Join with one separator character. */
  function Join(parts: seq<string>, sep: char): string
  {
    if |parts| == 0 then ""
    else if |parts| == 1 then parts[0]
    else parts[0] + [sep] + Join(parts[1..], sep)
  }

  /** A text without separators is one field. */
  lemma SplitNone(s: string, seps: set<char>)
    requires NoneOf(s, seps)
    ensures Split(s, seps) == [s]
  {
  }

  /** The field before the first separator is split off, the rest is split on. */
  lemma SplitCons(a: string, x: char, b: string, seps: set<char>)
    requires NoneOf(a, seps) && x in seps
    ensures Split(a + [x] + b, seps) == [a] + Split(b, seps)
  {
    var s := a + [x] + b;
    assert s[|a|] == x;
    assert !NoneOf(s, seps);
    var i := IndexOfAny(s, seps);
    assert forall j :: 0 <= j < |a| ==> s[j] == a[j];
    assert forall j :: 0 <= j < i ==> s[..i][j] == s[j];
    assert forall j :: 0 <= j < i ==> s[j] !in seps;
    assert i == |a|;
    assert s[..i] == a && s[i + 1..] == b;
  }

  /** Splitting around a separator splits each side. */
  lemma {:induction false} SplitAppend(a: string, x: char, b: string, seps: set<char>)
    requires x in seps
    ensures Split(a + [x] + b, seps) == Split(a, seps) + Split(b, seps)
    decreases |a|
  {
    if NoneOf(a, seps) {
      SplitCons(a, x, b, seps);
    } else {
      var i := IndexOfAny(a, seps);
      var a1, y, a2 := a[..i], a[i], a[i + 1..];
      assert a == a1 + [y] + a2;
      assert a + [x] + b == a1 + [y] + (a2 + [x] + b);
      calc {
        Split(a + [x] + b, seps);
        { SplitCons(a1, y, a2 + [x] + b, seps); }
        [a1] + Split(a2 + [x] + b, seps);
        { SplitAppend(a2, x, b, seps); }
        [a1] + (Split(a2, seps) + Split(b, seps));
        ([a1] + Split(a2, seps)) + Split(b, seps);
        { SplitCons(a1, y, a2, seps); }
        Split(a, seps) + Split(b, seps);
      }
    }
  }

  /** Split undoes Join when no field holds the separator. */
  lemma {:induction false} SplitJoin(parts: seq<string>, sep: char, seps: set<char>)
    requires |parts| >= 1 && sep in seps
    requires forall k :: 0 <= k < |parts| ==> NoneOf(parts[k], seps)
    ensures Split(Join(parts, sep), seps) == parts
    decreases |parts|
  {
    if |parts| == 1 {
      SplitNone(parts[0], seps);
    } else {
      SplitCons(parts[0], sep, Join(parts[1..], sep), seps);
      SplitJoin(parts[1..], sep, seps);
      assert [parts[0]] + parts[1..] == parts;
    }
  }

  /** Appending a field to a non-empty list appends a separator and the field. */
  lemma {:induction false} JoinSnoc(ts: seq<string>, t: string, sep: char)
    requires ts != []
    ensures Join(ts + [t], sep) == Join(ts, sep) + [sep] + t
    decreases |ts|
  {
    if |ts| > 1 {
      assert (ts + [t])[1..] == ts[1..] + [t];
      JoinSnoc(ts[1..], t, sep);
    }
  }

  /** Join undoes Split on one separator. */
  lemma {:induction false} JoinSplit(s: string, sep: char)
    ensures Join(Split(s, {sep}), sep) == s
    decreases |s|
  {
    if !NoneOf(s, {sep}) {
      var i := IndexOfAny(s, {sep});
      var a, b := s[..i], s[i + 1..];
      JoinSplit(b, sep);
      assert Split(s, {sep}) == [a] + Split(b, {sep});
      JoinCons(a, Split(b, {sep}), sep);
      assert s == a + [sep] + b;
    }
  }

  lemma JoinCons(a: string, rest: seq<string>, sep: char)
    requires rest != []
    ensures Join([a] + rest, sep) == a + [sep] + Join(rest, sep)
  {
    assert ([a] + rest)[1..] == rest;
  }

  // ---------------------------------------------------------------------
  // Trimming and replacing

  /** String.TrimEnd(c): removes every trailing c. */
  function TrimEnd(s: string, c: char): (r: string)
    ensures StartsWith(s, r)
    ensures r == [] || r[|r| - 1] != c
    ensures forall i :: |r| <= i < |s| ==> s[i] == c
  {
    if s == [] || s[|s| - 1] != c then s else TrimEnd(s[..|s| - 1], c)
  }

  /** String.TrimStart(c). */
  function TrimStart(s: string, c: char): (r: string)
    ensures EndsWith(s, r)
    ensures r == [] || r[0] != c
    ensures forall i :: 0 <= i < |s| - |r| ==> s[i] == c
  {
    if s == [] || s[0] != c then s else TrimStart(s[1..], c)
  }

  /** String.Trim(c): both ends. */
  function Trim(s: string, c: char): string
  {
    TrimEnd(TrimStart(s, c), c)
  }

  /** String.Replace(char, char). */
  function Replace(s: string, from: char, to: char): (r: string)
    ensures |r| == |s|
    ensures forall i :: 0 <= i < |s| ==> r[i] == if s[i] == from then to else s[i]
  {
    if s == [] then [] else [if s[0] == from then to else s[0]] + Replace(s[1..], from, to)
  }

  // ---------------------------------------------------------------------
  // Decimal integers (the digit form that Int32/Int64 parsing accepts)

  predicate IsDigit(c: char)
  {
    '0' <= c <= '9'
  }

  predicate AllDigits(s: string)
  {
    forall i :: 0 <= i < |s| ==> IsDigit(s[i])
  }

  function DigitChar(d: nat): char
    requires d < 10
  {
    ('0' as int + d) as char
  }

  /** The value of a text of decimal digits. */
  function DigitsValue(s: string): nat
    requires AllDigits(s)
  {
    if s == [] then 0
    else DigitsValue(s[..|s| - 1]) * 10 + (s[|s| - 1] as int - '0' as int)
  }

  /** The decimal rendering of a natural number, without leading zeros. */
  function NatToString(n: nat): (r: string)
    ensures |r| >= 1 && AllDigits(r)
    ensures |r| > 1 ==> r[0] != '0'
  {
    if n < 10 then [DigitChar(n)] else NatToString(n / 10) + [DigitChar(n % 10)]
  }

  /** Parsing a decimal number: None for an empty text or a non-digit. */
  function ParseNat(s: string): (r: Option<nat>)
    ensures r.Some? <==> |s| >= 1 && AllDigits(s)
  {
    if |s| >= 1 && AllDigits(s) then Some(DigitsValue(s)) else None
  }

  lemma {:induction false} DigitsOfNat(n: nat)
    ensures DigitsValue(NatToString(n)) == n
  {
    if n >= 10 {
      DigitsOfNat(n / 10);
      var s := NatToString(n);
      assert s[..|s| - 1] == NatToString(n / 10);
    }
  }

  /** Rendering then parsing a number gives it back. */
  lemma ParseNatToString(n: nat)
    ensures ParseNat(NatToString(n)) == Some(n)
  {
    DigitsOfNat(n);
  }

  /** Rendering is injective. */
  lemma NatToStringInjective(m: nat, n: nat)
    requires NatToString(m) == NatToString(n)
    ensures m == n
  {
    ParseNatToString(m);
    ParseNatToString(n);
  }

  /** The invariant-culture rendering of an integer: a '-' before the digits of a negative one. */
  function IntToString(i: int): (r: string)
    ensures i >= 0 ==> r == NatToString(i)
    ensures i < 0 ==> r == "-" + NatToString(-i)
  {
    if i < 0 then "-" + NatToString(-i) else NatToString(i)
  }

  // ---------------------------------------------------------------------
  // Windows paths (Path.Combine)

  predicate IsSeparator(c: char)
  {
    c == '\\' || c == '/'
  }

  const PathSeparators: set<char> := {'\\', '/'}

  predicate IsRooted(p: string)
  {
    (|p| >= 1 && IsSeparator(p[0])) || (|p| >= 2 && p[1] == ':')
  }

  /** Path.Combine(a, b): an empty part is skipped, a rooted b wins, a separator is inserted when needed. */
  function Combine(a: string, b: string): string
  {
    if b == [] then a
    else if a == [] then b
    else if IsRooted(b) then b
    else if IsSeparator(a[|a| - 1]) then a + b
    else a + "\\" + b
  }

  /** Combining a root with a plain relative name puts one backslash between them. */
  lemma CombinePlain(a: string, b: string)
    requires |a| >= 1 && !IsSeparator(a[|a| - 1])
    requires |b| >= 1 && NoneOf(b, PathSeparators + {':'})
    ensures Combine(a, b) == a + "\\" + b
  {
    assert b[0] !in PathSeparators + {':'};
    assert |b| >= 2 ==> b[1] !in PathSeparators + {':'};
  }

  /** The entry names after the last directory separator. */
  function LastComponent(name: string): string
  {
    var parts := Split(name, PathSeparators);
    parts[|parts| - 1]
  }

  /** The last component of parent\name is name, when name holds no separator. */
  lemma LastComponentOf(parent: string, name: string)
    requires NoneOf(name, PathSeparators)
    ensures LastComponent(parent + "\\" + name) == name
  {
    SplitAppend(parent, '\\', name, PathSeparators);
    SplitNone(name, PathSeparators);
    assert parent + "\\" + name == parent + ['\\'] + name;
  }

  /** Combining a folder with a plain file name ends in that file name. */
  lemma CombineLastComponent(folder: string, name: string)
    requires name != [] && NoneOf(name, PathSeparators + {':'})
    ensures LastComponent(Combine(folder, name)) == name
  {
    assert !IsRooted(name) by {
      assert name[0] !in PathSeparators + {':'};
      assert |name| >= 2 ==> name[1] !in PathSeparators + {':'};
    }
    assert NoneOf(name, PathSeparators);
    if folder == [] {
      SplitNone(name, PathSeparators);
    } else if IsSeparator(folder[|folder| - 1]) {
      var p := folder[..|folder| - 1];
      assert folder + name == p + [folder[|folder| - 1]] + name;
      SplitAppend(p, folder[|folder| - 1], name, PathSeparators);
      SplitNone(name, PathSeparators);
    } else {
      LastComponentOf(folder, name);
    }
  }

  /** Trailing slashes are trimmed the same way before and after case folding. */
  lemma {:induction false} LowerTrimEndSlash(s: string)
    ensures TrimEnd(Lower(s), '/') == Lower(TrimEnd(s, '/'))
    decreases |s|
  {
    if s != [] {
      var p := s[..|s| - 1];
      assert s == p + [s[|s| - 1]];
      LowerConcat(p, [s[|s| - 1]]);
      assert Lower(s)[..|s| - 1] == Lower(p);
      LowerTrimEndSlash(p);
    }
  }
}
