/** Byte strings, as the Go code sees them: bucket names, stored keys, labels.
    A `string` stands for a sequence of bytes, each `char` being one byte. */
module Text {

  datatype Option<+T> = None | Some(value: T)

  const NUL: char := '\0'

  // ----- byte-lexicographic order (bytes.Compare, sort.Strings, bbolt key order) -----

  predicate Less(a: string, b: string) {
    b != [] && (a == [] || a[0] < b[0] || (a[0] == b[0] && Less(a[1..], b[1..])))
  }

  lemma {:induction false} LessTransitive(a: string, b: string, c: string)
    requires Less(a, b) && Less(b, c)
    ensures Less(a, c)
  {
    if a != [] && a[0] == b[0] && b[0] == c[0] {
      LessTransitive(a[1..], b[1..], c[1..]);
    }
  }

  lemma {:induction false} LessTotal(a: string, b: string)
    ensures !(Less(a, b) && Less(b, a))
    ensures a == b <==> !Less(a, b) && !Less(b, a)
  {
    if a != [] && b != [] && a[0] == b[0] {
      LessTotal(a[1..], b[1..]);
      assert a == [a[0]] + a[1..] && b == [b[0]] + b[1..];
    }
  }

  ghost predicate StrictlySorted(names: seq<string>) {
    forall i, j :: 0 <= i < j < |names| ==> Less(names[i], names[j])
  }

  /** The byte-least name of a non-empty set. */
  ghost function Least(names: set<string>): (least: string)
    requires names != {}
    ensures least in names
    ensures forall n :: n in names && n != least ==> Less(least, n)
  {
    var n :| n in names;
    if names == {n} then n else
      var rest := Least(names - {n});
      LessTotal(n, rest);
      assert forall m :: m in names ==> m == n || m in names - {n};
      assert Less(n, rest) ==> forall m :: m in names - {n} && m != rest ==> Less(n, m) by {
        forall m | Less(n, rest) && m in names - {n} && m != rest ensures Less(n, m) {
          LessTransitive(n, rest, m);
        }
      }
      if Less(n, rest) then n else rest
  }

  /** What sort.Strings makes of the names of a Go map, and the order of bbolt's ForEach. */
  ghost function Sorted(names: set<string>): (r: seq<string>)
    ensures StrictlySorted(r)
    ensures forall n :: n in r <==> n in names
  {
    if names == {} then [] else
      var least := Least(names);
      var rest := Sorted(names - {least});
      assert forall n :: n in [least] + rest <==> n == least || n in rest;
      [least] + rest
  }

  lemma {:induction false} SortedUnique(a: seq<string>, b: seq<string>)
    requires StrictlySorted(a) && StrictlySorted(b)
    requires forall n :: n in a <==> n in b
    ensures a == b
  {
    if a == [] || b == [] {
      if a != [] { HeadIsMember(a); }
      if b != [] { HeadIsMember(b); }
    } else {
      assert a[0] in a && a[0] in b;
      assert b[0] in a by { assert b[0] in b; }
      HeadIsLeast(a, b[0]);
      HeadIsLeast(b, a[0]);
      LessTotal(a[0], b[0]);
      forall n ensures n in a[1..] <==> n in b[1..] {
        TailMembers(a, n);
        TailMembers(b, n);
      }
      SortedUnique(a[1..], b[1..]);
      assert a == [a[0]] + a[1..] && b == [b[0]] + b[1..];
    }
  }

  lemma HeadIsMember(a: seq<string>)
    requires a != []
    ensures exists n :: n in a
  {
    assert a[0] in a;
  }

  lemma HeadIsLeast(a: seq<string>, n: string)
    requires StrictlySorted(a) && n in a
    ensures n == a[0] || Less(a[0], n)
  {
    var i :| 0 <= i < |a| && a[i] == n;
  }

  lemma TailMembers(a: seq<string>, n: string)
    requires StrictlySorted(a) && a != []
    ensures n in a[1..] <==> n in a && n != a[0]
  {
    LessTotal(n, n);
    if n in a && n != a[0] {
      var i :| 0 <= i < |a| && a[i] == n;
      assert a[1..][i - 1] == n;
    }
  }

  // ----- splitting and joining on a separator byte -----

  function Split(s: string, sep: char): (parts: seq<string>)
    ensures parts != []
  {
    if s == [] then [""]
    else
      var rest := Split(s[1..], sep);
      if s[0] == sep then [""] + rest else [[s[0]] + rest[0]] + rest[1..]
  }

  function Join(parts: seq<string>, sep: char): string
    requires parts != []
  {
    if |parts| == 1 then parts[0] else parts[0] + [sep] + Join(parts[1..], sep)
  }

  lemma JoinOfFour(a: string, b: string, c: string, d: string)
    ensures Join([a, b, c, d], NUL) == a + [NUL] + b + [NUL] + c + [NUL] + d
  {
    assert [a, b, c, d][1..] == [b, c, d] && [b, c, d][1..] == [c, d] && [c, d][1..] == [d];
    assert Join([c, d], NUL) == c + [NUL] + d;
    assert Join([b, c, d], NUL) == b + [NUL] + Join([c, d], NUL);
  }

  ghost predicate AllFree(parts: seq<string>, sep: char) {
    forall i :: 0 <= i < |parts| ==> sep !in parts[i]
  }

  lemma {:induction false} SplitFree(s: string, sep: char)
    ensures AllFree(Split(s, sep), sep)
  {
    if s != [] {
      SplitFree(s[1..], sep);
    }
  }

  lemma {:induction false} SplitPrefix(p: string, rest: string, sep: char)
    requires sep !in p
    ensures Split(p + [sep] + rest, sep) == [p] + Split(rest, sep)
    ensures Split(p, sep) == [p]
  {
    var s := p + [sep] + rest;
    if p == [] {
      assert s == [sep] + rest && s[1..] == rest;
    } else {
      SplitPrefix(p[1..], rest, sep);
      assert s[1..] == p[1..] + [sep] + rest;
      assert p == [p[0]] + p[1..];
    }
  }

  lemma {:induction false} SplitJoin(parts: seq<string>, sep: char)
    requires parts != [] && AllFree(parts, sep)
    ensures Split(Join(parts, sep), sep) == parts
  {
    if |parts| == 1 {
      SplitPrefix(parts[0], "", sep);
    } else {
      SplitJoin(parts[1..], sep);
      SplitPrefix(parts[0], Join(parts[1..], sep), sep);
    }
  }

  /** The position of the first occurrence of a byte, or |s| (strings.IndexByte's -1). */
  function IndexOf(s: string, c: char): (i: nat)
    ensures i <= |s| && c !in s[..i]
    ensures i < |s| ==> s[i] == c
    ensures i == |s| <==> c !in s
  {
    if s == [] then 0
    else if s[0] == c then 0
    else
      var j := IndexOf(s[1..], c);
      assert s[..j + 1] == [s[0]] + s[1..][..j];
      j + 1
  }

  lemma IndexOfFirst(s: string, c: char, k: nat)
    requires k < |s| && s[k] == c && c !in s[..k]
    ensures IndexOf(s, c) == k
  {
    var i := IndexOf(s, c);
  }

  // ----- decimal numerals -----

  predicate IsDigit(c: char) { '0' <= c <= '9' }

  predicate AllDigits(s: string) { forall i :: 0 <= i < |s| ==> IsDigit(s[i]) }

  function Digit(d: nat): char
    requires d < 10
  { '0' + d as char }

  function DigitValue(c: char): nat
    requires IsDigit(c)
  { (c - '0') as nat }

  /** The number a string of decimal digits denotes ("" denotes 0). */
  function DigitsValue(s: string): nat
    requires AllDigits(s)
  {
    if s == [] then 0 else DigitsValue(s[..|s| - 1]) * 10 + DigitValue(s[|s| - 1])
  }

  /** fmt's %d for a non-negative number: no leading zeros. */
  function Decimal(n: nat): (s: string)
    ensures s != [] && AllDigits(s)
    ensures if n == 0 then s == "0" else s[0] != '0'
  {
    if n < 10 then [Digit(n)] else Decimal(n / 10) + [Digit(n % 10)]
  }

  lemma {:induction false} DecimalValue(n: nat)
    ensures DigitsValue(Decimal(n)) == n
  {
    var s := Decimal(n);
    if n < 10 {
      assert s[..|s| - 1] == [];
    } else {
      DecimalValue(n / 10);
      assert s[..|s| - 1] == Decimal(n / 10);
    }
  }
}
