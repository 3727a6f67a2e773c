/**
 * A batch request (BatchRequest.java): the request URI, its parameter
 * multimap, the key that fingerprints it, the estimated processing time
 * and the sticky flag.
 */
module Requests {
  import opened Wrappers
  import opened JavaStrings

  const MAX_KEY_LENGTH: nat := 200
  const DEFAULT_ESTIMATED_TIME: int := 60000

  // ---------------------------------------------------------------------------
  // The parameter multimap
  // ---------------------------------------------------------------------------

  /** One parameter name and its values, in the order they were added. */
  datatype Binding = Binding(name: string, values: seq<string>)

  predicate DistinctNames(p: seq<Binding>)
  {
    forall i, j :: 0 <= i < j < |p| ==> p[i].name != p[j].name
  }

  /**
   * A MultivaluedMap<String, String>: each name at most once. The sequence
   * order stands for the iteration order of the map's key set.
   */
  type Params = p: seq<Binding> | DistinctNames(p) witness []

  /** The names of the multimap, in key-set order. */
  function Names(p: seq<Binding>): (ns: seq<string>)
    ensures |ns| == |p| && forall i :: 0 <= i < |p| ==> ns[i] == p[i].name
  {
    if p == [] then [] else [p[0].name] + Names(p[1..])
  }

  lemma NamesDistinct(p: Params)
    ensures Distinct(Names(p))
  {
  }

  /** `parameters.get(name)`, with the empty list for a name that is absent. */
  function Get(p: seq<Binding>, name: string): seq<string>
  {
    if p == [] then [] else if p[0].name == name then p[0].values else Get(p[1..], name)
  }

  /** `parameters.add(name, value)`: append the value to the name's list, adding the name last if new. */
  function Add(p: seq<Binding>, name: string, value: string): seq<Binding>
  {
    if p == [] then [Binding(name, [value])]
    else if p[0].name == name then [Binding(name, p[0].values + [value])] + p[1..]
    else [p[0]] + Add(p[1..], name, value)
  }

  /** Adding a value keeps the names in order, and adds the name last if it is new. */
  lemma {:induction false} AddNames(p: seq<Binding>, name: string, value: string)
    ensures Names(Add(p, name, value)) == if name in Names(p) then Names(p) else Names(p) + [name]
  {
    if p != [] {
      AddNames(p[1..], name, value);
      if p[0].name != name {
        var rest := Add(p[1..], name, value);
        assert ([p[0]] + rest)[1..] == rest;
      } else {
        var rest := [Binding(name, p[0].values + [value])] + p[1..];
        assert rest[1..] == p[1..];
      }
    }
  }

  /** Adding a value appends it to that name's values and changes no other name's. */
  lemma {:induction false} AddGet(p: seq<Binding>, name: string, value: string, n: string)
    ensures Get(Add(p, name, value), n) == if n != name then Get(p, n) else Get(p, name) + [value]
  {
    if p != [] {
      AddGet(p[1..], name, value, n);
      if p[0].name != name {
        assert ([p[0]] + Add(p[1..], name, value))[1..] == Add(p[1..], name, value);
      } else {
        assert ([Binding(name, p[0].values + [value])] + p[1..])[1..] == p[1..];
      }
    }
  }

  lemma AddKeepsDistinct(p: seq<Binding>, name: string, value: string)
    requires DistinctNames(p)
    ensures DistinctNames(Add(p, name, value))
  {
    AddNames(p, name, value);
    var r := Add(p, name, value);
    assert forall i :: 0 <= i < |r| ==> r[i].name == Names(r)[i];
    assert forall i :: 0 <= i < |p| ==> p[i].name == Names(p)[i];
  }

  lemma {:induction false} AddNew(p: seq<Binding>, name: string, value: string)
    requires name !in Names(p)
    ensures Add(p, name, value) == p + [Binding(name, [value])]
  {
    if p != [] {
      assert p[0].name == Names(p)[0];
      assert Names(p[1..]) == Names(p)[1..];
      AddNew(p[1..], name, value);
      assert p == [p[0]] + p[1..];
    }
  }

  lemma AppendNewName(q: seq<Binding>, b: Binding)
    requires DistinctNames(q) && b.name !in Names(q)
    ensures DistinctNames(q + [b])
  {
    forall i, j | 0 <= i < j < |q| + 1 ensures (q + [b])[i].name != (q + [b])[j].name {
      if j == |q| { assert (q + [b])[i].name == Names(q)[i]; }
    }
  }

  lemma {:induction false} AddToLast(q: seq<Binding>, name: string, vs: seq<string>, value: string)
    requires forall i :: 0 <= i < |q| ==> q[i].name != name
    ensures Add(q + [Binding(name, vs)], name, value) == q + [Binding(name, vs + [value])]
  {
    if q != [] {
      var p := q + [Binding(name, vs)];
      assert p[0] == q[0];
      assert p[1..] == q[1..] + [Binding(name, vs)];
      AddToLast(q[1..], name, vs, value);
      assert q == [q[0]] + q[1..];
    }
  }

  /** Two multimaps hold the same names, and each name the same values in some order. */
  ghost predicate SameMultimap(p1: Params, p2: Params)
  {
    && (forall n :: n in Names(p1) <==> n in Names(p2))
    && (forall n :: multiset(Get(p1, n)) == multiset(Get(p2, n)))
  }

  // ---------------------------------------------------------------------------
  // getParameterString and decodeParameterString
  // ---------------------------------------------------------------------------

  /** The `name=value` strings of one name, in value order. */
  function PairStrings(name: string, vs: seq<string>): (r: seq<string>)
    ensures |r| == |vs| && forall i :: 0 <= i < |vs| ==> r[i] == name + "=" + vs[i]
  {
    seq(|vs|, i requires 0 <= i < |vs| => name + "=" + vs[i])
  }

  /** Every (name, value) pair of the multimap as `name=value`, names in key-set order. */
  function AllPairs(p: seq<Binding>): seq<string>
  {
    if p == [] then []
    else AllPairs(p[..|p| - 1]) + PairStrings(p[|p| - 1].name, p[|p| - 1].values)
  }

  lemma PairStringsSnoc(done: seq<string>, name: string, vs: seq<string>, j: nat)
    requires j < |vs|
    ensures done + PairStrings(name, vs[..j + 1]) == done + PairStrings(name, vs[..j]) + [name + "=" + vs[j]]
  {
    assert PairStrings(name, vs[..j + 1]) == PairStrings(name, vs[..j]) + [name + "=" + vs[j]];
  }

  lemma AllPairsSnoc(p: seq<Binding>, i: nat)
    requires i < |p|
    ensures AllPairs(p[..i + 1]) == AllPairs(p[..i]) + PairStrings(p[i].name, p[i].values)
  {
    assert p[..i + 1][..i] == p[..i];
  }

  /** What getParameterString returns: the pairs joined by `&`. */
  function Encoded(p: seq<Binding>): string
  {
    Join('&', AllPairs(p))
  }

  /** decodeParameterString fails with ArrayIndexOutOfBoundsException on a binding made only of `=`. */
  datatype DecodeError = NoParameterName(binding: string)

  /**
   * One step of decodeParameterString: split the binding at `=`; two parts add
   * a value, any other non-zero number of parts adds the empty value (the
   * Jersey string multimap stores `add(name, null)` as "").
   */
  function DecodeBinding(acc: seq<Binding>, binding: string): Result<seq<Binding>, DecodeError>
  {
    var pair := Split(binding, '=');
    if |pair| == 0 then Failure(NoParameterName(binding))
    else if |pair| == 2 then Success(Add(acc, pair[0], pair[1]))
    else Success(Add(acc, pair[0], ""))
  }

  function DecodeBindings(bs: seq<string>): Result<seq<Binding>, DecodeError>
  {
    if bs == [] then Success([])
    else
      match DecodeBindings(bs[..|bs| - 1])
      case Failure(e) => Failure(e)
      case Success(acc) => DecodeBinding(acc, bs[|bs| - 1])
  }

  /** What decodeParameterString returns (or throws) for a parameter string. */
  function Decoded(s: string): Result<seq<Binding>, DecodeError>
  {
    DecodeBindings(Split(s, '&'))
  }

  /** A decoded multimap names each parameter once. */
  lemma {:induction false} DecodedDistinct(bs: seq<string>)
    ensures DecodeBindings(bs).Success? ==> DistinctNames(DecodeBindings(bs).value)
  {
    if bs != [] {
      DecodedDistinct(bs[..|bs| - 1]);
      if DecodeBindings(bs[..|bs| - 1]).Success? {
        var acc := DecodeBindings(bs[..|bs| - 1]).value;
        var pair := Split(bs[|bs| - 1], '=');
        if |pair| == 2 {
          AddKeepsDistinct(acc, pair[0], pair[1]);
        } else if |pair| != 0 {
          AddKeepsDistinct(acc, pair[0], "");
        }
      }
    }
  }

  lemma {:induction false} DecodeBindingsSnoc(bs: seq<string>, b: string)
    ensures DecodeBindings(bs + [b]) ==
      match DecodeBindings(bs)
      case Failure(e) => Failure(e)
      case Success(acc) => DecodeBinding(acc, b)
  {
    assert (bs + [b])[..|bs|] == bs;
  }

  lemma {:induction false} DecodePrefixFailure(bs: seq<string>, i: nat)
    requires i <= |bs| && DecodeBindings(bs[..i]).Failure?
    ensures DecodeBindings(bs) == DecodeBindings(bs[..i])
    decreases |bs| - i
  {
    if i < |bs| {
      DecodeBindingsSnoc(bs[..i], bs[i]);
      assert bs[..i + 1] == bs[..i] + [bs[i]];
      DecodePrefixFailure(bs, i + 1);
    } else {
      assert bs[..i] == bs;
    }
  }

  /** A multimap whose parameter string decodes back to it. */
  predicate Encodable(p: Params)
  {
    && |p| >= 1
    && forall i :: 0 <= i < |p| ==>
         && p[i].name != "" && '&' !in p[i].name && '=' !in p[i].name
         && |p[i].values| >= 1
         && forall j :: 0 <= j < |p[i].values| ==> '&' !in p[i].values[j] && '=' !in p[i].values[j]
  }

  lemma SplitPair(name: string, value: string)
    requires name != "" && '=' !in name && '=' !in value
    ensures Split(name + "=" + value, '=') == if value == "" then [name] else [name, value]
  {
    var s := name + "=" + value;
    assert s[|name|] == '=';
    assert '=' in s;
    assert s == name + ['='] + value;
    FieldsConcat(name, value, '=');
    FieldsWithoutSeparator(name, '=');
    FieldsWithoutSeparator(value, '=');
    var fs := [name, value];
    assert Fields(s, '=') == fs;
    assert Split(s, '=') == StripTrailingEmpty(fs);
    if value == "" {
      assert fs[..1] == [name];
      assert StripTrailingEmpty(fs) == StripTrailingEmpty([name]);
    }
  }

  lemma DecodePair(acc: seq<Binding>, name: string, value: string)
    requires name != "" && '=' !in name && '=' !in value
    ensures DecodeBinding(acc, name + "=" + value) == Success(Add(acc, name, value))
  {
    SplitPair(name, value);
  }

  lemma {:induction false} DecodeValues(xs: seq<string>, q: seq<Binding>, name: string, vs: seq<string>)
    requires DecodeBindings(xs) == Success(q)
    requires name !in Names(q) && name != "" && '=' !in name
    requires |vs| >= 1 && forall j :: 0 <= j < |vs| ==> '=' !in vs[j]
    ensures DecodeBindings(xs + PairStrings(name, vs)) == Success(q + [Binding(name, vs)])
  {
    var last := vs[|vs| - 1];
    var init := vs[..|vs| - 1];
    var pair := name + "=" + last;
    assert PairStrings(name, vs) == PairStrings(name, init) + [pair];
    assert xs + PairStrings(name, vs) == (xs + PairStrings(name, init)) + [pair];
    DecodeBindingsSnoc(xs + PairStrings(name, init), pair);
    if init == [] {
      assert xs + PairStrings(name, init) == xs;
      DecodePair(q, name, last);
      AddNew(q, name, last);
      assert [last] == vs;
    } else {
      DecodeValues(xs, q, name, init);
      DecodePair(q + [Binding(name, init)], name, last);
      AddToLast(q, name, init, last);
      InitLast(vs);
    }
  }

  lemma {:induction false} DecodeAllPairs(p: Params)
    requires forall i :: 0 <= i < |p| ==>
      && p[i].name != "" && '=' !in p[i].name && |p[i].values| >= 1
      && forall j :: 0 <= j < |p[i].values| ==> '=' !in p[i].values[j]
    ensures DecodeBindings(AllPairs(p)) == Success(p)
  {
    if p != [] {
      var q := p[..|p| - 1];
      var b := p[|p| - 1];
      DecodeAllPairs(q);
      assert b.name !in Names(q);
      DecodeValues(AllPairs(q), q, b.name, b.values);
      InitLast(p);
    }
  }

  lemma {:induction false} AllPairsShape(p: Params)
    requires forall i :: 0 <= i < |p| ==>
      && p[i].name != "" && '&' !in p[i].name
      && forall j :: 0 <= j < |p[i].values| ==> '&' !in p[i].values[j]
    ensures forall k :: 0 <= k < |AllPairs(p)| ==> AllPairs(p)[k] != "" && '&' !in AllPairs(p)[k]
    ensures (exists i :: 0 <= i < |p| && |p[i].values| >= 1) ==> |AllPairs(p)| >= 1
  {
    if p != [] {
      var q := p[..|p| - 1];
      AllPairsShape(q);
      var b := p[|p| - 1];
      var ps := PairStrings(b.name, b.values);
      forall k | 0 <= k < |ps| ensures ps[k] != "" && '&' !in ps[k] {
        assert ps[k] == b.name + "=" + b.values[k];
        assert ps[k][|b.name|] == '=';
      }
      if exists i :: 0 <= i < |p| && |p[i].values| >= 1 {
        var i :| 0 <= i < |p| && |p[i].values| >= 1;
        if i < |p| - 1 { assert q[i] == p[i]; }
      }
    }
  }

  /** The parameter string lists exactly the multimap's pairs, in order, separated by `&`. */
  lemma EncodedSplitsIntoPairs(p: Params)
    requires Encodable(p)
    ensures Split(Encoded(p), '&') == AllPairs(p)
  {
    AllPairsShape(p);
    SplitOfJoin(AllPairs(p), '&');
  }

  /** decodeParameterString(getParameterString()) gives back the original multimap. */
  lemma DecodeEncoded(p: Params)
    requires Encodable(p)
    ensures Decoded(Encoded(p)) == Success(p)
  {
    EncodedSplitsIntoPairs(p);
    DecodeAllPairs(p);
  }

  /** The empty multimap does not survive: its string "" decodes to one empty name with an empty value. */
  lemma DecodeEmptyString()
    ensures Encoded([]) == ""
    ensures Decoded("") == Success([Binding("", [""])])
  {
    assert Split("", '&') == [""];
    assert Split("", '=') == [""];
    assert DecodeBindings([""]) == DecodeBinding([], "") by {
      assert [""][..0] == [];
    }
  }

  // ---------------------------------------------------------------------------
  // The request key (getKey)
  // ---------------------------------------------------------------------------

  /** MessageDigest MD5, which the model does not implement: any function with 16-byte results. */
  type Md5 = f: seq<byte> -> seq<byte> | forall data :: |f(data)| == 16
    witness (data: seq<byte>) => seq(16, _ => 0 as byte)

  /** A key that setKey accepts: at most MAX_KEY_LENGTH UTF-16 code units long and free of `/`. */
  predicate ValidKey(k: string)
  {
    Utf16Length(k) <= MAX_KEY_LENGTH && '/' !in k
  }

  /** setKey counts UTF-16 code units: 101 characters outside the Basic Multilingual Plane are too long. */
  lemma SupplementaryKeyTooLong(k: string)
    requires |k| == 101 && forall i :: 0 <= i < |k| ==> k[i] as int >= 0x1_0000
    ensures !ValidKey(k)
  {
    Utf16LengthSupplementary(k);
  }

  /** Each value followed by `_`. */
  function ValuesText(vs: seq<string>): string
  {
    if vs == [] then "" else ValuesText(vs[..|vs| - 1]) + vs[|vs| - 1] + "_"
  }

  /** One name's part of the key text: the name, `_`, then its sorted values each followed by `_`. */
  function NameText(p: seq<Binding>, n: string): string
  {
    n + "_" + ValuesText(Sort(Get(p, n)))
  }

  function NamesText(p: seq<Binding>, ns: seq<string>): string
  {
    if ns == [] then "" else NamesText(p, ns[..|ns| - 1]) + NameText(p, ns[|ns| - 1])
  }

  lemma ValuesTextSnoc(prefix: string, vs: seq<string>, j: nat)
    requires j < |vs|
    ensures prefix + ValuesText(vs[..j + 1]) == prefix + ValuesText(vs[..j]) + vs[j] + "_"
  {
    var ws := vs[..j + 1];
    assert ws[..|ws| - 1] == vs[..j] && ws[|ws| - 1] == vs[j];
    var a := ValuesText(vs[..j]);
    assert ValuesText(ws) == a + vs[j] + "_";
    Assoc(prefix, a + vs[j], "_");
    Assoc(prefix, a, vs[j]);
  }

  lemma NamesTextSnoc(prefix: string, p: seq<Binding>, ns: seq<string>, i: nat)
    requires i < |ns|
    ensures prefix + NamesText(p, ns[..i + 1]) == prefix + NamesText(p, ns[..i]) + NameText(p, ns[i])
  {
    var ms := ns[..i + 1];
    assert ms[..|ms| - 1] == ns[..i] && ms[|ms| - 1] == ns[i];
    assert NamesText(p, ms) == NamesText(p, ns[..i]) + NameText(p, ns[i]);
    Assoc(prefix, NamesText(p, ns[..i]), NameText(p, ns[i]));
  }

  lemma Concat4<T>(w: seq<T>, x: seq<T>, y: seq<T>, z: seq<T>)
    ensures w + (x + y + z) == w + x + y + z
  {
  }

  lemma NamesTextEndsWithUnderscore(p: seq<Binding>, ns: seq<string>)
    ensures var t := NamesText(p, ns); t == "" || t[|t| - 1] == '_'
  {
    if ns != [] {
      var vt := ValuesText(Sort(Get(p, ns[|ns| - 1])));
      assert vt == "" || vt[|vt| - 1] == '_';
    }
  }

  /** The key string before escaping: the URI, `_`, then the sorted names with their sorted values. */
  function KeyText(uri: string, p: seq<Binding>): (r: string)
    ensures |r| >= 1 && r[|r| - 1] == '_'
  {
    NamesTextEndsWithUnderscore(p, Sort(Names(p)));
    uri + "_" + NamesText(p, Sort(Names(p)))
  }

  /** The readable key: the key text with every `/` written `%2F` and the final `_` removed. */
  function ReadableKey(uri: string, p: seq<Binding>): string
  {
    var t := Replace(KeyText(uri, p), '/', "%2F");
    ReplaceKeepsLength(KeyText(uri, p));
    t[..|t| - 1]
  }

  lemma {:induction false} ReplaceKeepsLength(s: string)
    ensures |Replace(s, '/', "%2F")| >= |s|
  {
    if s != [] { ReplaceKeepsLength(s[1..]); }
  }

  /** The bytes fed to the digest: the URI, then `name=value` for each sorted name and sorted value. */
  function ValueDigestInput(name: string, vs: seq<string>): seq<byte>
  {
    if vs == [] then [] else ValueDigestInput(name, vs[..|vs| - 1]) + Utf8(name + "=" + vs[|vs| - 1])
  }

  function NamesDigestInput(p: seq<Binding>, ns: seq<string>): seq<byte>
  {
    if ns == [] then []
    else
      var n := ns[|ns| - 1];
      NamesDigestInput(p, ns[..|ns| - 1]) + ValueDigestInput(n, Sort(Get(p, n)))
  }

  lemma ValueDigestInputSnoc(prefix: seq<byte>, name: string, vs: seq<string>, j: nat)
    requires j < |vs|
    ensures prefix + ValueDigestInput(name, vs[..j + 1]) == prefix + ValueDigestInput(name, vs[..j]) + Utf8(name + "=" + vs[j])
  {
    var ws := vs[..j + 1];
    assert ws[..|ws| - 1] == vs[..j] && ws[|ws| - 1] == vs[j];
    assert ValueDigestInput(name, ws) == ValueDigestInput(name, vs[..j]) + Utf8(name + "=" + vs[j]);
    Assoc(prefix, ValueDigestInput(name, vs[..j]), Utf8(name + "=" + vs[j]));
  }

  lemma NamesDigestInputSnoc(prefix: seq<byte>, p: seq<Binding>, ns: seq<string>, i: nat)
    requires i < |ns|
    ensures prefix + NamesDigestInput(p, ns[..i + 1]) == prefix + NamesDigestInput(p, ns[..i]) + ValueDigestInput(ns[i], Sort(Get(p, ns[i])))
  {
    var ms := ns[..i + 1];
    assert ms[..|ms| - 1] == ns[..i] && ms[|ms| - 1] == ns[i];
    var b := ValueDigestInput(ns[i], Sort(Get(p, ns[i])));
    assert NamesDigestInput(p, ms) == NamesDigestInput(p, ns[..i]) + b;
    Assoc(prefix, NamesDigestInput(p, ns[..i]), b);
  }

  function DigestInput(uri: string, p: seq<Binding>): seq<byte>
  {
    Utf8(uri) + NamesDigestInput(p, Sort(Names(p)))
  }

  /** Characters 1 to 3 of `Integer.toHexString((b & 0xFF) | 0x100)`. */
  function HexByte(b: byte): (r: string)
    ensures r == [HexDigit(b as int / 16), HexDigit(b as int % 16)]
  {
    PaddedByteHex(b);
    ToHexString(PaddedByte(b))[1..3]
  }

  /** The hex encoding: two characters per byte. */
  function Hex(bs: seq<byte>): (r: string)
    ensures |r| == 2 * |bs|
  {
    if bs == [] then "" else Hex(bs[..|bs| - 1]) + HexByte(bs[|bs| - 1])
  }

  /** The key getKey computes: the readable key, or the hex digest when that key is too long. */
  function ComputeKey(uri: string, p: seq<Binding>, md5: Md5): string
  {
    var readable := ReadableKey(uri, p);
    if Utf16Length(readable) > MAX_KEY_LENGTH then Hex(md5(DigestInput(uri, p))) else readable
  }

  /** The hex encoding holds exactly two lower-case hex digits per byte, high nibble first. */
  lemma {:induction false} HexDigits(bs: seq<byte>)
    ensures forall i :: 0 <= i < |bs| ==>
      Hex(bs)[2 * i] == HexDigit(bs[i] as int / 16) && Hex(bs)[2 * i + 1] == HexDigit(bs[i] as int % 16)
  {
    if bs != [] {
      var init := bs[..|bs| - 1];
      var last := bs[|bs| - 1];
      HexDigits(init);
      var h := Hex(init);
      var t := HexByte(last);
      assert Hex(bs) == h + t;
      forall i | 0 <= i < |bs|
        ensures Hex(bs)[2 * i] == HexDigit(bs[i] as int / 16) && Hex(bs)[2 * i + 1] == HexDigit(bs[i] as int % 16)
      {
        if i < |init| {
          assert bs[i] == init[i];
          assert (h + t)[2 * i] == h[2 * i] && (h + t)[2 * i + 1] == h[2 * i + 1];
        } else {
          assert (h + t)[2 * i] == t[0] && (h + t)[2 * i + 1] == t[1];
        }
      }
    }
  }

  lemma {:induction false} HexIsLowerCase(bs: seq<byte>)
    ensures forall k :: 0 <= k < |Hex(bs)| ==> IsHexDigit(Hex(bs)[k])
  {
    if bs != [] {
      HexIsLowerCase(bs[..|bs| - 1]);
    }
  }

  /** The readable key is the escaped key text without its last character, which is `_`. */
  lemma ReadableKeyStripsFinalUnderscore(uri: string, p: seq<Binding>)
    ensures var t := KeyText(uri, p);
      ReadableKey(uri, p) == Replace(t[..|t| - 1], '/', "%2F")
  {
    var t := KeyText(uri, p);
    var init := t[..|t| - 1];
    InitLast(t);
    assert [t[|t| - 1]] == "_";
    ReplaceAppend(init, "_", '/', "%2F");
    assert "_"[1..] == "";
    assert Replace("_", '/', "%2F") == "_";
    var r := Replace(t, '/', "%2F");
    assert r == Replace(init, '/', "%2F") + "_";
    assert r[..|r| - 1] == Replace(init, '/', "%2F");
  }

  /**
   * A computed key is always a key setKey would accept. It is the readable key
   * when that fits in MAX_KEY_LENGTH, and otherwise the 32-character hex digest.
   */
  lemma ComputeKeyShape(uri: string, p: seq<Binding>, md5: Md5)
    ensures ValidKey(ComputeKey(uri, p, md5))
    ensures Utf16Length(ReadableKey(uri, p)) <= MAX_KEY_LENGTH ==> ComputeKey(uri, p, md5) == ReadableKey(uri, p)
    ensures Utf16Length(ReadableKey(uri, p)) > MAX_KEY_LENGTH ==>
      ComputeKey(uri, p, md5) == Hex(md5(DigestInput(uri, p))) && |ComputeKey(uri, p, md5)| == 32
  {
    var readable := ReadableKey(uri, p);
    if Utf16Length(readable) > MAX_KEY_LENGTH {
      HexIsLowerCase(md5(DigestInput(uri, p)));
    } else {
      var t := Replace(KeyText(uri, p), '/', "%2F");
      assert '/' !in t;
      assert forall k :: 0 <= k < |readable| ==> readable[k] == t[k];
    }
  }

  lemma {:induction false} NamesTextAgree(p1: seq<Binding>, p2: seq<Binding>, ns: seq<string>)
    requires forall n :: Sort(Get(p1, n)) == Sort(Get(p2, n))
    ensures NamesText(p1, ns) == NamesText(p2, ns)
    ensures NamesDigestInput(p1, ns) == NamesDigestInput(p2, ns)
  {
    if ns != [] { NamesTextAgree(p1, p2, ns[..|ns| - 1]); }
  }

  /** Multimaps with the same contents have the same sorted names and the same sorted values for each name. */
  lemma SameMultimapSorted(p1: Params, p2: Params)
    requires SameMultimap(p1, p2)
    ensures Sort(Names(p1)) == Sort(Names(p2))
    ensures forall n :: Sort(Get(p1, n)) == Sort(Get(p2, n))
  {
    NamesDistinct(p1);
    NamesDistinct(p2);
    DistinctSameElements(Names(p1), Names(p2));
    SortDeterminedByMultiset(Names(p1), Names(p2));
    forall n ensures Sort(Get(p1, n)) == Sort(Get(p2, n)) {
      SortDeterminedByMultiset(Get(p1, n), Get(p2, n));
    }
  }

  /** The key depends on the multimap only, not on the order names or values were added in. */
  lemma KeyIgnoresInsertionOrder(uri: string, p1: Params, p2: Params, md5: Md5)
    requires SameMultimap(p1, p2)
    ensures ComputeKey(uri, p1, md5) == ComputeKey(uri, p2, md5)
  {
    SameMultimapSorted(p1, p2);
    NamesTextAgree(p1, p2, Sort(Names(p1)));
    var t1, t2 := KeyText(uri, p1), KeyText(uri, p2);
    assert t1 == t2;
    var d1, d2 := DigestInput(uri, p1), DigestInput(uri, p2);
    assert d1 == d2;
    var r1, r2 := ReadableKey(uri, p1), ReadableKey(uri, p2);
    assert r1 == r2;
  }

  // ---------------------------------------------------------------------------
  // The request object
  // ---------------------------------------------------------------------------

  class BatchRequest {
    const requestURI: string
    const parameters: Params
    /** The MD5 implementation getKey obtains from MessageDigest. */
    const md5: Md5
    /** The key, once assigned by setKey or memoised by getKey. */
    var key: Option<string>
    var estimatedTime: int
    var sticky: bool

    /** Every key the request carries is one setKey would accept. */
    predicate Valid()
      reads this
    {
      key.Some? ==> ValidKey(key.value)
    }

    /** The key getKey returns in the current state. */
    function Key(): string
      reads this
    {
      if key.Some? then key.value else ComputeKey(requestURI, parameters, md5)
    }

    lemma KeyIsValid()
      requires Valid()
      ensures ValidKey(Key())
    {
      if key.None? { ComputeKeyShape(requestURI, parameters, md5); }
    }

    constructor (requestURI: string, parameters: Params, sticky: bool, md5: Md5)
      ensures this.requestURI == requestURI && this.parameters == parameters
      ensures this.sticky == sticky && this.md5 == md5
      ensures key == None && estimatedTime == DEFAULT_ESTIMATED_TIME
      ensures Valid()
    {
      this.requestURI := requestURI;
      this.parameters := parameters;
      this.sticky := sticky;
      this.md5 := md5;
      key := None;
      estimatedTime := DEFAULT_ESTIMATED_TIME;
    }

    /** The constructor from a parameter string, which throws when decodeParameterString does. */
    static method FromParameterString(requestURI: string, parameterString: string, sticky: bool, md5: Md5)
      returns (r: Result<BatchRequest, DecodeError>)
      ensures Decoded(parameterString).Failure? ==> r == Failure(Decoded(parameterString).error)
      ensures Decoded(parameterString).Success? ==>
        && r.Success? && fresh(r.value)
        && r.value.requestURI == requestURI && r.value.parameters == Decoded(parameterString).value
        && r.value.sticky == sticky && r.value.md5 == md5
        && r.value.key == None && r.value.estimatedTime == DEFAULT_ESTIMATED_TIME
    {
      var decoded := DecodeParameterString(parameterString);
      match decoded {
        case Failure(e) => r := Failure(e);
        case Success(params) =>
          DecodedDistinct(Split(parameterString, '&'));
          var req := new BatchRequest(requestURI, params, sticky, md5);
          r := Success(req);
      }
    }

    /** decodeParameterString: splits at `&`, then each binding at `=`, adding to a new multimap. */
    static method DecodeParameterString(paramString: string) returns (r: Result<seq<Binding>, DecodeError>)
      ensures r == Decoded(paramString)
    {
      var bindings := Split(paramString, '&');
      var parameters: seq<Binding> := [];
      for i := 0 to |bindings|
        invariant DecodeBindings(bindings[..i]) == Success(parameters)
      {
        DecodeBindingsSnoc(bindings[..i], bindings[i]);
        assert bindings[..i + 1] == bindings[..i] + [bindings[i]];
        var pair := Split(bindings[i], '=');
        if |pair| == 0 {
          DecodePrefixFailure(bindings, i + 1);
          return Failure(NoParameterName(bindings[i]));
        }
        var param := pair[0];
        if |pair| == 2 {
          parameters := Add(parameters, param, pair[1]);
        } else {
          parameters := Add(parameters, param, "");
        }
      }
      assert bindings[..|bindings|] == bindings;
      return Success(parameters);
    }

    /** getParameterString: every pair as `name=value`, separated by `&`. */
    method GetParameterString() returns (s: string)
      ensures s == Encoded(parameters)
    {
      s := "";
      var started := false;
      for i := 0 to |parameters|
        invariant s == Join('&', AllPairs(parameters[..i]))
        invariant started <==> AllPairs(parameters[..i]) != []
      {
        var b := parameters[i];
        s, started := AppendPairs(s, started, AllPairs(parameters[..i]), b.name, b.values);
        AllPairsSnoc(parameters, i);
      }
      assert parameters[..|parameters|] == parameters;
    }

    /** The inner loop of getParameterString: write `name=value` for each value, `&` before all but the very first pair. */
    static method AppendPairs(s0: string, started0: bool, ghost done: seq<string>, name: string, values: seq<string>)
      returns (s: string, started: bool)
      requires s0 == Join('&', done) && (started0 <==> done != [])
      ensures s == Join('&', done + PairStrings(name, values))
      ensures started <==> done + PairStrings(name, values) != []
    {
      s, started := s0, started0;
      assert done + PairStrings(name, values[..0]) == done;
      for j := 0 to |values|
        invariant s == Join('&', done + PairStrings(name, values[..j]))
        invariant started <==> done + PairStrings(name, values[..j]) != []
      {
        ghost var before := done + PairStrings(name, values[..j]);
        var pair := name + "=" + values[j];
        PairStringsSnoc(done, name, values, j);
        JoinSnoc('&', before, pair);
        if started {
          s := s + "&";
        }
        s := s + pair;
        started := true;
      }
      assert values[..|values|] == values;
    }

    method SetSticky(sticky: bool)
      modifies this`sticky
      ensures this.sticky == sticky
    {
      this.sticky := sticky;
    }

    method SetEstimatedTime(estimatedTime: int)
      modifies this`estimatedTime
      ensures this.estimatedTime == estimatedTime
    {
      this.estimatedTime := estimatedTime;
    }

    /** setKey: accepts a valid key, and otherwise throws IllegalArgumentException (`ok` false) leaving the key as it was. */
    method SetKey(k: string) returns (ok: bool)
      modifies this`key
      ensures ok <==> ValidKey(k)
      ensures key == if ok then Some(k) else old(key)
      ensures old(Valid()) ==> Valid()
    {
      if Utf16Length(k) > MAX_KEY_LENGTH || '/' in k {
        return false;
      }
      key := Some(k);
      return true;
    }

    /** getKey: returns the assigned or memoised key, or computes it and memoises it. */
    method GetKey() returns (k: string)
      modifies this`key
      ensures k == old(Key()) && key == Some(k)
      ensures Key() == old(Key())
      ensures old(Valid()) ==> Valid()
    {
      if key.Some? {
        return key.value;
      }
      var kb := KeyTextOf(requestURI, parameters);
      k := Replace(kb, '/', "%2F");
      ReplaceKeepsLength(kb);
      k := k[..|k| - 1];
      assert k == ReadableKey(requestURI, parameters);
      if Utf16Length(k) > MAX_KEY_LENGTH {
        var fed := DigestInputOf(requestURI, parameters);
        var digest := md5(fed);
        k := HexOf(digest);
      }
      assert k == ComputeKey(requestURI, parameters, md5);
      ComputeKeyShape(requestURI, parameters, md5);
      key := Some(k);
    }

    /** The first loop of getKey: the URI, then each sorted name and its sorted values, each followed by `_`. */
    static method KeyTextOf(uri: string, parameters: seq<Binding>) returns (kb: string)
      ensures kb == KeyText(uri, parameters)
    {
      var names := Sort(Names(parameters));
      kb := uri + "_";
      for i := 0 to |names|
        invariant kb == uri + "_" + NamesText(parameters, names[..i])
      {
        var p := names[i];
        kb := kb + p + "_";
        ghost var prefix := kb;
        var values := Sort(Get(parameters, p));
        for j := 0 to |values|
          invariant kb == prefix + ValuesText(values[..j])
        {
          ValuesTextSnoc(prefix, values, j);
          kb := kb + values[j] + "_";
        }
        assert values[..|values|] == values;
        NamesTextSnoc(uri + "_", parameters, names, i);
        Concat4(uri + "_" + NamesText(parameters, names[..i]), p, "_", ValuesText(values));
      }
      assert names[..|names|] == names;
    }

    /** The loop of getKey that feeds the digest: the URI, then `name=value` for each sorted pair. */
    static method DigestInputOf(uri: string, parameters: seq<Binding>) returns (fed: seq<byte>)
      ensures fed == DigestInput(uri, parameters)
    {
      var names := Sort(Names(parameters));
      fed := Utf8(uri);
      for i := 0 to |names|
        invariant fed == Utf8(uri) + NamesDigestInput(parameters, names[..i])
      {
        var p := names[i];
        fed := ValueDigestOf(fed, p, Sort(Get(parameters, p)));
        NamesDigestInputSnoc(Utf8(uri), parameters, names, i);
      }
      assert names[..|names|] == names;
    }

    /** The inner loop of getKey's digest input: `name=value` in UTF-8 for each value in turn. */
    static method ValueDigestOf(prefix: seq<byte>, p: string, values: seq<string>) returns (fed: seq<byte>)
      ensures fed == prefix + ValueDigestInput(p, values)
    {
      fed := prefix;
      for j := 0 to |values|
        invariant fed == prefix + ValueDigestInput(p, values[..j])
      {
        ValueDigestInputSnoc(prefix, p, values, j);
        fed := fed + Utf8(p + "=" + values[j]);
      }
      assert values[..|values|] == values;
    }

    /** The loop of getKey that writes the digest in hex, two digits per byte. */
    static method HexOf(digest: seq<byte>) returns (sb: string)
      ensures sb == Hex(digest)
    {
      sb := "";
      for i := 0 to |digest|
        invariant sb == Hex(digest[..i])
      {
        assert digest[..i + 1][..i] == digest[..i];
        PaddedByteHex(digest[i]);
        sb := sb + ToHexString(PaddedByte(digest[i]))[1..3];
      }
      assert digest[..|digest|] == digest;
    }
  }
}
