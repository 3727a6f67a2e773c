/**
 * Models of the java.lang operations the request fingerprint is built from:
 * String.compareTo and Collections.sort on strings, String.replace,
 * String.split on a one-character separator, joining with a separator,
 * String.getBytes(UTF_8) and Integer.toHexString.
 */
module JavaStrings {

  type byte = bv8

  // ---------------------------------------------------------------------------
  // String.compareTo: the lexicographic order on strings
  // ---------------------------------------------------------------------------

  /** `a.compareTo(b) <= 0`: `a` is a prefix of `b`, or the first differing character of `a` is smaller. */
  predicate LessEq(a: string, b: string)
    decreases |a|
  {
    if a == [] then true
    else if b == [] then false
    else if a[0] != b[0] then a[0] < b[0]
    else LessEq(a[1..], b[1..])
  }

  lemma {:induction false} LessEqReflexive(a: string)
    ensures LessEq(a, a)
    decreases |a|
  {
    if a != [] { LessEqReflexive(a[1..]); }
  }

  lemma {:induction false} LessEqTotal(a: string, b: string)
    ensures LessEq(a, b) || LessEq(b, a)
    decreases |a|
  {
    if a != [] && b != [] && a[0] == b[0] { LessEqTotal(a[1..], b[1..]); }
  }

  lemma {:induction false} LessEqAntisymmetric(a: string, b: string)
    requires LessEq(a, b) && LessEq(b, a)
    ensures a == b
    decreases |a|
  {
    if a != [] {
      LessEqAntisymmetric(a[1..], b[1..]);
      assert a == [a[0]] + a[1..] && b == [b[0]] + b[1..];
    }
  }

  lemma {:induction false} LessEqTransitive(a: string, b: string, c: string)
    requires LessEq(a, b) && LessEq(b, c)
    ensures LessEq(a, c)
    decreases |a|
  {
    if a != [] && b != [] && c != [] && a[0] == b[0] && b[0] == c[0] {
      LessEqTransitive(a[1..], b[1..], c[1..]);
    }
  }

  // ---------------------------------------------------------------------------
  // Collections.sort on a list of strings
  // ---------------------------------------------------------------------------

  predicate Sorted(s: seq<string>)
  {
    forall i, j :: 0 <= i < j < |s| ==> LessEq(s[i], s[j])
  }

  /** Inserts `x` into the sorted sequence `s` before the first element it does not exceed. */
  function Insert(x: string, s: seq<string>): (r: seq<string>)
    requires Sorted(s)
    ensures Sorted(r) && multiset(r) == multiset(s) + multiset{x}
  {
    if s == [] then [x]
    else if LessEq(x, s[0]) then
      assert forall j :: 0 <= j < |s| ==> LessEq(x, s[j]) by {
        forall j | 0 <= j < |s| ensures LessEq(x, s[j]) {
          if j > 0 { LessEqTransitive(x, s[0], s[j]); }
        }
      }
      [x] + s
    else
      LessEqTotal(x, s[0]);
      assert s == [s[0]] + s[1..];
      var t := Insert(x, s[1..]);
      LowerBound(s[0], x, s[1..], t);
      [s[0]] + t
  }

  /** A lower bound of `x` and of every element of `s` bounds every element of a rearrangement of `s` and `x`. */
  lemma LowerBound(y: string, x: string, s: seq<string>, t: seq<string>)
    requires LessEq(y, x) && forall j :: 0 <= j < |s| ==> LessEq(y, s[j])
    requires multiset(t) == multiset(s) + multiset{x}
    ensures forall j :: 0 <= j < |t| ==> LessEq(y, t[j])
  {
    forall j | 0 <= j < |t| ensures LessEq(y, t[j]) {
      assert t[j] in multiset(t);
      if t[j] != x {
        assert t[j] in multiset(s);
        var k :| 0 <= k < |s| && s[k] == t[j];
      }
    }
  }

  /** The list `sorted(collection)` returns: the same strings, in ascending order. */
  function Sort(s: seq<string>): (r: seq<string>)
    ensures Sorted(r) && multiset(r) == multiset(s)
  {
    if s == [] then []
    else
      assert s == [s[0]] + s[1..];
      Insert(s[0], Sort(s[1..]))
  }

  lemma HeadIsLeast(s: seq<string>, y: string)
    requires Sorted(s) && y in s
    ensures LessEq(s[0], y)
  {
    var k :| 0 <= k < |s| && s[k] == y;
    if k == 0 { LessEqReflexive(y); }
  }

  /** Two sorted arrangements of the same strings are the same sequence. */
  lemma {:induction false} SortedUnique(a: seq<string>, b: seq<string>)
    requires Sorted(a) && Sorted(b) && multiset(a) == multiset(b)
    ensures a == b
  {
    assert |a| == |multiset(a)| == |multiset(b)| == |b|;
    if a != [] {
      var x, y := a[0], b[0];
      assert x in multiset(b) && y in multiset(a);
      HeadIsLeast(a, y);
      HeadIsLeast(b, x);
      LessEqAntisymmetric(x, y);
      assert a == [x] + a[1..] && b == [x] + b[1..];
      assert multiset(a) == multiset{x} + multiset(a[1..]);
      assert multiset(b) == multiset{x} + multiset(b[1..]);
      forall z ensures multiset(a[1..])[z] == multiset(b[1..])[z] {
        assert multiset(a)[z] == multiset(b)[z];
      }
      SortedUnique(a[1..], b[1..]);
    }
  }

  /** The sorted list depends only on which strings occur how often, not on their input order. */
  lemma SortDeterminedByMultiset(s: seq<string>, t: seq<string>)
    requires multiset(s) == multiset(t)
    ensures Sort(s) == Sort(t)
  {
    SortedUnique(Sort(s), Sort(t));
  }

  /** A non-empty sequence is its prefix followed by its last element. */
  lemma InitLast<T>(s: seq<T>)
    requires |s| >= 1
    ensures s[..|s| - 1] + [s[|s| - 1]] == s
  {
  }

  lemma Assoc<T>(x: seq<T>, y: seq<T>, z: seq<T>)
    ensures x + (y + z) == x + y + z
  {
  }

  predicate Distinct<T(==)>(s: seq<T>)
  {
    forall i, j :: 0 <= i < j < |s| ==> s[i] != s[j]
  }

  lemma {:induction false} DistinctCount<T>(s: seq<T>, x: T)
    requires Distinct(s)
    ensures multiset(s)[x] == if x in s then 1 else 0
  {
    if s != [] {
      assert s == [s[0]] + s[1..];
      DistinctCount(s[1..], x);
    }
  }

  /** Duplicate-free sequences with the same elements are permutations of each other. */
  lemma DistinctSameElements<T>(a: seq<T>, b: seq<T>)
    requires Distinct(a) && Distinct(b)
    requires forall x :: x in a <==> x in b
    ensures multiset(a) == multiset(b)
  {
    forall x ensures multiset(a)[x] == multiset(b)[x] {
      DistinctCount(a, x);
      DistinctCount(b, x);
    }
  }

  // ---------------------------------------------------------------------------
  // String.replace of a one-character target, and prefixes
  // ---------------------------------------------------------------------------

  /** `s.replace(String.valueOf(c), with)`: every occurrence of `c` replaced by `with`. */
  function Replace(s: string, c: char, with: string): (r: string)
    ensures c !in with ==> c !in r
  {
    if s == [] then ""
    else (if s[0] == c then with else [s[0]]) + Replace(s[1..], c, with)
  }

  lemma {:induction false} ReplaceAppend(s: string, t: string, c: char, with: string)
    ensures Replace(s + t, c, with) == Replace(s, c, with) + Replace(t, c, with)
  {
    if s != [] {
      assert (s + t)[0] == s[0] && (s + t)[1..] == s[1..] + t;
      ReplaceAppend(s[1..], t, c, with);
      var h := if s[0] == c then with else [s[0]];
      assert Replace(s + t, c, with) == h + Replace(s[1..] + t, c, with);
      assert Replace(s, c, with) == h + Replace(s[1..], c, with);
    } else {
      assert s + t == t;
    }
  }

  predicate StartsWith(s: string, prefix: string)
  {
    |prefix| <= |s| && s[..|prefix|] == prefix
  }

  // ---------------------------------------------------------------------------
  // String.split(sep) for a one-character separator, and its inverse Join
  // ---------------------------------------------------------------------------

  /** All the fields of `s` between occurrences of `c`, empty ones included. */
  function Fields(s: string, c: char): (r: seq<string>)
    ensures |r| >= 1
  {
    if s == [] then [""]
    else
      var rest := Fields(s[1..], c);
      if s[0] == c then [""] + rest else [[s[0]] + rest[0]] + rest[1..]
  }

  function StripTrailingEmpty(fs: seq<string>): seq<string>
  {
    if fs == [] then []
    else if fs[|fs| - 1] == "" then StripTrailingEmpty(fs[..|fs| - 1])
    else fs
  }

  /**
   * `s.split(c)`: when `c` does not occur the result is `[s]` (so `"".split(c)` is `[""]`);
   * otherwise it is the fields of `s` with the trailing empty ones removed.
   */
  function Split(s: string, c: char): seq<string>
  {
    if c !in s then [s] else StripTrailingEmpty(Fields(s, c))
  }

  lemma {:induction false} FieldsWithoutSeparator(s: string, c: char)
    requires c !in s
    ensures Fields(s, c) == [s]
  {
    if s != [] {
      FieldsWithoutSeparator(s[1..], c);
      assert s == [s[0]] + s[1..];
    }
  }

  /** Splitting at one occurrence of the separator concatenates the fields of the two sides. */
  lemma {:induction false} FieldsConcat(a: string, b: string, c: char)
    ensures Fields(a + [c] + b, c) == Fields(a, c) + Fields(b, c)
  {
    var s := a + [c] + b;
    if a == [] {
      assert s == [c] + b;
      assert s[1..] == b;
    } else {
      assert s[0] == a[0];
      assert s[1..] == a[1..] + [c] + b;
      FieldsConcat(a[1..], b, c);
    }
  }

  /** The elements of `xs` written out with `sep` between them (`String.join`). */
  function Join(sep: char, xs: seq<string>): string
  {
    if xs == [] then ""
    else if |xs| == 1 then xs[0]
    else Join(sep, xs[..|xs| - 1]) + [sep] + xs[|xs| - 1]
  }

  lemma JoinSnoc(sep: char, xs: seq<string>, x: string)
    ensures Join(sep, xs + [x]) == if xs == [] then x else Join(sep, xs) + [sep] + x
  {
    assert (xs + [x])[..|xs|] == xs;
  }

  lemma {:induction false} FieldsOfJoin(xs: seq<string>, c: char)
    requires |xs| >= 1
    requires forall i :: 0 <= i < |xs| ==> c !in xs[i]
    ensures Fields(Join(c, xs), c) == xs
  {
    if |xs| == 1 {
      FieldsWithoutSeparator(xs[0], c);
    } else {
      var init := xs[..|xs| - 1];
      FieldsOfJoin(init, c);
      FieldsConcat(Join(c, init), xs[|xs| - 1], c);
      FieldsWithoutSeparator(xs[|xs| - 1], c);
      assert xs == init + [xs[|xs| - 1]];
    }
  }

  /** Splitting a join of non-empty, separator-free parts gives the parts back. */
  lemma SplitOfJoin(xs: seq<string>, c: char)
    requires |xs| >= 1
    requires forall i :: 0 <= i < |xs| ==> xs[i] != "" && c !in xs[i]
    ensures Split(Join(c, xs), c) == xs
  {
    if |xs| == 1 {
    } else {
      var init := xs[..|xs| - 1];
      assert Join(c, xs)[|Join(c, init)|] == c;
      FieldsOfJoin(xs, c);
    }
  }

  // ---------------------------------------------------------------------------
  // String.length()
  // ---------------------------------------------------------------------------

  /**
   * String.length(): the number of UTF-16 code units. A character outside the
   * Basic Multilingual Plane is a surrogate pair and counts twice.
   */
  function Utf16Length(s: string): (n: nat)
    ensures |s| <= n <= 2 * |s|
  {
    if s == [] then 0 else (if s[0] as int < 0x1_0000 then 1 else 2) + Utf16Length(s[1..])
  }

  /** The code units are as many as the characters exactly when every character lies in the Basic Multilingual Plane. */
  lemma {:induction false} Utf16LengthBmp(s: string)
    ensures Utf16Length(s) == |s| <==> forall k :: 0 <= k < |s| ==> s[k] as int < 0x1_0000
  {
    if s != [] {
      assert forall k :: 1 <= k < |s| ==> s[k] == s[1..][k - 1];
      Utf16LengthBmp(s[1..]);
    }
  }

  /** A string made only of characters outside the Basic Multilingual Plane has twice as many code units. */
  lemma {:induction false} Utf16LengthSupplementary(s: string)
    requires forall k :: 0 <= k < |s| ==> s[k] as int >= 0x1_0000
    ensures Utf16Length(s) == 2 * |s|
  {
    if s != [] {
      assert forall k :: 0 <= k < |s[1..]| ==> s[1..][k] == s[k + 1];
      Utf16LengthSupplementary(s[1..]);
    }
  }

  // ---------------------------------------------------------------------------
  // String.getBytes(StandardCharsets.UTF_8)
  // ---------------------------------------------------------------------------

  function Utf8Char(ch: char): seq<byte>
  {
    var n := ch as int;
    if n < 0x80 then [n as byte]
    else if n < 0x800 then [(0xC0 + n / 0x40) as byte, (0x80 + n % 0x40) as byte]
    else if n < 0x1_0000 then
      [(0xE0 + n / 0x1000) as byte, (0x80 + (n / 0x40) % 0x40) as byte, (0x80 + n % 0x40) as byte]
    else
      [(0xF0 + n / 0x4_0000) as byte, (0x80 + (n / 0x1000) % 0x40) as byte,
       (0x80 + (n / 0x40) % 0x40) as byte, (0x80 + n % 0x40) as byte]
  }

  function Utf8(s: string): seq<byte>
  {
    if s == [] then [] else Utf8Char(s[0]) + Utf8(s[1..])
  }

  // ---------------------------------------------------------------------------
  // Integer.toHexString on non-negative values
  // ---------------------------------------------------------------------------

  /** A lower-case hexadecimal digit. */
  predicate IsHexDigit(c: char)
  {
    '0' <= c <= '9' || 'a' <= c <= 'f'
  }

  /** The digit `Character.forDigit(d, 16)`. */
  function HexDigit(d: nat): (c: char)
    requires d < 16
    ensures IsHexDigit(c)
  {
    if d < 10 then ('0' as int + d) as char else ('a' as int + d - 10) as char
  }

  /** `Integer.toHexString(n)` for `n >= 0`: lower-case digits, no leading zeros. */
  function ToHexString(n: nat): string
  {
    if n < 16 then [HexDigit(n)] else ToHexString(n / 16) + [HexDigit(n % 16)]
  }

  /** `(b & 0xFF) | 0x100`, the value whose hex form the digest encoder cuts two digits from. */
  function PaddedByte(b: byte): nat
  {
    (((b as bv32) & 0xFF) | 0x100) as int
  }

  lemma PaddedByteValue(b: byte)
    ensures PaddedByte(b) == b as int + 0x100
  {
    var x := b as bv32;
    assert x < 0x100;
    assert (x & 0xFF) | 0x100 == x + 0x100;
  }

  /** The hex form of a padded byte has three digits: a leading `1`, then the byte's two digits. */
  lemma PaddedByteHex(b: byte)
    ensures |ToHexString(PaddedByte(b))| == 3
    ensures ToHexString(PaddedByte(b))[0] == '1'
    ensures ToHexString(PaddedByte(b))[1..3] == [HexDigit(b as int / 16), HexDigit(b as int % 16)]
  {
    PaddedByteValue(b);
    var n := b as int + 0x100;
    assert n / 16 == 16 + b as int / 16;
    assert n % 16 == b as int % 16;
    assert (n / 16) / 16 == 1;
    assert (n / 16) % 16 == b as int / 16;
    assert ToHexString(1) == ['1'];
    assert ToHexString(n / 16) == ToHexString(1) + [HexDigit((n / 16) % 16)];
    assert ToHexString(n) == ToHexString(n / 16) + [HexDigit(n % 16)];
  }
}
