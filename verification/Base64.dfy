/** The hand-written Base64 encoder (crates/ussl-protocol/src/response.rs:168-198)
  * against a decoder of section 4 of RFC 4648, and the browser's `atob`, which
  * the client uses (sdks/js/src/client.ts:278-285). */
module Base64 {
  import opened Basics

  type Bytes = seq<bv8>

  const ALPHABET: string :=
    "ABCDEFGHIJKLMNOPQRSTUVWXYZ" + "abcdefghijklmnopqrstuvwxyz" + "0123456789" + "+/"

  /** A six-bit group, kept in a byte as the source does. */
  type Sextet = b: bv8 | b < 64

  function CharOf(b: Sextet): char {
    ALPHABET[b as int]
  }

  /** The RFC's table read backwards; 64 for characters not in it. */
  function PlaceOf(c: char): (n: nat)
    ensures n <= 64
  {
    if 'A' <= c <= 'Z' then c as int - 'A' as int
    else if 'a' <= c <= 'z' then c as int - 'a' as int + 26
    else if '0' <= c <= '9' then c as int - '0' as int + 52
    else if c == '+' then 62
    else if c == '/' then 63
    else 64
  }

  function SextetOf(c: char): Option<Sextet> {
    if PlaceOf(c) < 64 then Some(PlaceOf(c) as bv8) else None
  }

  function CharAt(n: int): char
    requires 0 <= n < 64
  {
    if n < 26 then ('A' as int + n) as char
    else if n < 52 then ('a' as int + n - 26) as char
    else if n < 62 then ('0' as int + n - 52) as char
    else if n == 62 then '+' else '/'
  }

  lemma AlphabetIs(n: int)
    requires 0 <= n < 64
    ensures ALPHABET[n] == CharAt(n)
  {}

  lemma BackToInt(n: int)
    requires 0 <= n < 64
    ensures (n as bv8) as int == n
  {}

  lemma BackToByte(b: Sextet)
    ensures 0 <= b as int < 64 && (b as int) as bv8 == b
  {}

  lemma TableInverts(b: Sextet)
    ensures SextetOf(CharOf(b)) == Some(b)
  {
    BackToByte(b);
    AlphabetIs(b as int);
  }

  lemma TableIsOnto(c: char)
    requires SextetOf(c).Some?
    ensures CharOf(SextetOf(c).value) == c
  {
    var n := PlaceOf(c);
    BackToInt(n);
    AlphabetIs(n);
  }

  // ---------- the bits ----------

  function S0(a: bv8): Sextet { a >> 2 }
  function S1(a: bv8, b: bv8): Sextet { ((a & 0x03) << 4) | (b >> 4) }
  function S2(b: bv8, c: bv8): Sextet { ((b & 0x0f) << 2) | (c >> 6) }
  function S3(c: bv8): Sextet { c & 0x3f }

  function B0(s: Sextet, t: Sextet): bv8 { (s << 2) | (t >> 4) }
  function B1(t: Sextet, u: Sextet): bv8 { ((t & 0x0f) << 4) | (u >> 2) }
  function B2(u: Sextet, w: Sextet): bv8 { ((u & 0x03) << 6) | w }

  lemma BytesOfSextets(a: bv8, b: bv8, c: bv8)
    ensures B0(S0(a), S1(a, b)) == a && B1(S1(a, b), S2(b, c)) == b && B2(S2(b, c), S3(c)) == c
    ensures S1(a, 0) & 0x0f == 0 && S2(b, 0) & 0x03 == 0
  {}

  lemma SextetsOfBytes(s: Sextet, t: Sextet, u: Sextet, w: Sextet)
    ensures S0(B0(s, t)) == s && S1(B0(s, t), B1(t, u)) == t && S2(B1(t, u), B2(u, w)) == u && S3(B2(u, w)) == w
    ensures t & 0x0f == 0 ==> S1(B0(s, t), 0) == t
    ensures u & 0x03 == 0 ==> S2(B1(t, u), 0) == u
  {}

  // ---------- encoding ----------

  /** Four characters for up to three bytes; missing bytes count as zero and show as '='. */
  function Quantum(d: Bytes): (q: string)
    requires d != []
    ensures |q| == 4
  {
    var b1 := if |d| > 1 then d[1] else 0;
    var b2 := if |d| > 2 then d[2] else 0;
    [CharOf(S0(d[0])), CharOf(S1(d[0], b1)),
     if |d| > 1 then CharOf(S2(b1, b2)) else '=',
     if |d| > 2 then CharOf(S3(b2)) else '=']
  }

  function Rest(d: Bytes): Bytes {
    if |d| <= 3 then [] else d[3..]
  }

  function Encode(d: Bytes): (s: string)
    ensures |s| == 4 * ((|d| + 2) / 3)
    decreases |d|
  {
    if d == [] then "" else Quantum(d) + Encode(Rest(d))
  }

  /** `base64_encode`. */
  method Base64Encode(data: Bytes) returns (result: string)
    ensures result == Encode(data)
  {
    hide *;
    result := "";
    var i := 0;
    EncodeFrom(data, 0);
    while i < |data|
      invariant i <= |data| + 2
      invariant Encode(data) == result + Encode(From(data, i))
    {
      EncodeFrom(data, i);
      var b0 := data[i];
      var b1 := if i + 1 < |data| then data[i + 1] else 0;
      var b2 := if i + 2 < |data| then data[i + 2] else 0;
      ghost var before := result;
      result := result + [CharOf(S0(b0))];
      result := result + [CharOf(S1(b0, b1))];
      result := result + [if i + 1 < |data| then CharOf(S2(b1, b2)) else '='];
      result := result + [if i + 2 < |data| then CharOf(S3(b2)) else '='];
      assert result == before + Quantum(From(data, i));
      i := i + 3;
    }
    EncodeFrom(data, i);
  }

  lemma EncodeFrom(data: Bytes, i: nat)
    ensures i == 0 ==> From(data, i) == data
    ensures i >= |data| ==> Encode(From(data, i)) == ""
    ensures i < |data| ==>
      var b1 := if i + 1 < |data| then data[i + 1] else 0;
      var b2 := if i + 2 < |data| then data[i + 2] else 0;
      From(data, i) != [] &&
      Encode(From(data, i)) == Quantum(From(data, i)) + Encode(From(data, i + 3)) &&
      Quantum(From(data, i)) == [CharOf(S0(data[i])), CharOf(S1(data[i], b1)),
                                 if i + 1 < |data| then CharOf(S2(b1, b2)) else '=',
                                 if i + 2 < |data| then CharOf(S3(b2)) else '=']
  {
    if i < |data| {
      assert Rest(From(data, i)) == From(data, i + 3);
    }
  }

  /** What is left of the data at position `i`. */
  function From(data: Bytes, i: nat): Bytes {
    if i < |data| then data[i..] else []
  }

  // ---------- decoding by the RFC ----------

  /** One quantum: section 4 of RFC 4648 allows padding in the last one only,
    * and (section 3.5) pad bits are zero. */
  function Unquantum(c0: char, c1: char, c2: char, c3: char, last: bool): Option<Bytes> {
    match (SextetOf(c0), SextetOf(c1))
    case (Some(x), Some(y)) =>
      (match (SextetOf(c2), SextetOf(c3))
       case (Some(z), Some(w)) => Some([B0(x, y), B1(y, z), B2(z, w)])
       case (Some(z), None) => if last && c3 == '=' && z & 0x03 == 0 then Some([B0(x, y), B1(y, z)]) else None
       case _ => if last && c2 == '=' && c3 == '=' && y & 0x0f == 0 then Some([B0(x, y)]) else None)
    case _ => None
  }

  function Decode(s: string): Option<Bytes>
    decreases |s|
  {
    if s == "" then Some([]) else
    if |s| < 4 then None else
    match (Unquantum(s[0], s[1], s[2], s[3], |s| == 4), Decode(s[4..]))
    case (Some(d), Some(rest)) => Some(d + rest)
    case _ => None
  }

  lemma PadIsNoSextet()
    ensures SextetOf('=') == None
  {}

  lemma UnquantumOfQuantum(d: Bytes, last: bool)
    requires d != [] && (|d| < 3 ==> last)
    ensures var q := Quantum(d);
            Unquantum(q[0], q[1], q[2], q[3], last) == Some(if |d| < 3 then d else d[..3])
  {
    hide CharOf, SextetOf, S0, S1, S2, S3, B0, B1, B2;
    var b1 := if |d| > 1 then d[1] else 0;
    var b2 := if |d| > 2 then d[2] else 0;
    TableInverts(S0(d[0]));
    TableInverts(S1(d[0], b1));
    TableInverts(S2(b1, b2));
    TableInverts(S3(b2));
    PadIsNoSextet();
    BytesOfSextets(d[0], b1, b2);
    assert (if |d| < 3 then d else d[..3]) ==
           if |d| == 1 then [d[0]] else if |d| == 2 then [d[0], b1] else [d[0], b1, b2];
  }

  lemma QuantumOfUnquantum(c0: char, c1: char, c2: char, c3: char, last: bool)
    requires Unquantum(c0, c1, c2, c3, last).Some?
    ensures var d := Unquantum(c0, c1, c2, c3, last).value;
            0 < |d| <= 3 && (|d| < 3 ==> last) && Quantum(d) == [c0, c1, c2, c3]
  {
    hide CharOf, SextetOf, S0, S1, S2, S3, B0, B1, B2;
    TableIsOnto(c0);
    TableIsOnto(c1);
    var x, y := SextetOf(c0).value, SextetOf(c1).value;
    if SextetOf(c2).Some? {
      TableIsOnto(c2);
      if SextetOf(c3).Some? {
        TableIsOnto(c3);
        SextetsOfBytes(x, y, SextetOf(c2).value, SextetOf(c3).value);
      } else {
        SextetsOfBytes(x, y, SextetOf(c2).value, 0);
      }
    } else {
      SextetsOfBytes(x, y, 0, 0);
    }
  }

  lemma {:induction false} DecodeOfEncode(d: Bytes)
    ensures Decode(Encode(d)) == Some(d)
    decreases |d|
  {
    hide Quantum, Unquantum;
    if d != [] {
      UnquantumOfQuantum(d, |d| <= 3);
      DecodeOfEncode(Rest(d));
      assert Encode(d)[..4] == Quantum(d) && Encode(d)[4..] == Encode(Rest(d));
      assert d == (if |d| < 3 then d else d[..3]) + Rest(d);
    }
  }

  /** Only encodings decode. */
  lemma {:induction false} EncodeOfDecode(s: string)
    requires Decode(s).Some?
    ensures Encode(Decode(s).value) == s
    decreases |s|
  {
    hide Quantum, Unquantum;
    if s != "" {
      QuantumOfUnquantum(s[0], s[1], s[2], s[3], |s| == 4);
      EncodeOfDecode(s[4..]);
      var d, rest := Unquantum(s[0], s[1], s[2], s[3], |s| == 4).value, Decode(s[4..]).value;
      assert |s| == 4 ==> s[4..] == "" && rest == [];
      QuantumOfFirst(d, rest);
      assert Rest(d + rest) == rest;
      assert s == [s[0], s[1], s[2], s[3]] + s[4..];
    }
  }

  lemma QuantumOfFirst(d: Bytes, rest: Bytes)
    requires |d| == 3 || (d != [] && rest == [])
    ensures Quantum(d + rest) == Quantum(d)
  {}

  /** The encoder and the RFC's decoder are inverse: a text decodes to `d` exactly
    * when it is the encoding of `d`. */
  lemma DecodesIffEncoded(s: string, d: Bytes)
    ensures Decode(s) == Some(d) <==> s == Encode(d)
  {
    DecodeOfEncode(d);
    if Decode(s).Some? {
      EncodeOfDecode(s);
    }
  }

  lemma QuantumShape(d: Bytes)
    requires d != []
    ensures var q := Quantum(d);
            SextetOf(q[0]).Some? && SextetOf(q[1]).Some? &&
            (if |d| > 1 then SextetOf(q[2]).Some? else q[2] == '=') &&
            (if |d| > 2 then SextetOf(q[3]).Some? else q[3] == '=')
  {
    hide CharOf, SextetOf, S0, S1, S2, S3;
    var b1 := if |d| > 1 then d[1] else 0;
    var b2 := if |d| > 2 then d[2] else 0;
    TableInverts(S0(d[0]));
    TableInverts(S1(d[0], b1));
    TableInverts(S2(b1, b2));
    TableInverts(S3(b2));
  }

  /** The shape of an encoding: alphabet characters, then as many '=' as bytes are missing. */
  lemma {:induction false} EncodeShape(d: Bytes)
    ensures var s := Encode(d);
            var pads := (3 - |d| % 3) % 3;
            |s| == 4 * ((|d| + 2) / 3) && pads <= |s| &&
            (forall i :: 0 <= i < |s| - pads ==> SextetOf(s[i]).Some?) &&
            (forall i :: |s| - pads <= i < |s| ==> s[i] == '=')
    decreases |d|
  {
    hide SextetOf, Quantum;
    if d != [] {
      var q, rest := Quantum(d), Encode(Rest(d));
      var s := Encode(d);
      QuantumShape(d);
      EncodeShape(Rest(d));
      var pads := (3 - |d| % 3) % 3;
      assert s == q + rest && pads == if |d| < 3 then 3 - |d| else (3 - |Rest(d)| % 3) % 3;
      forall i | 0 <= i < |s| ensures if i < |s| - pads then SextetOf(s[i]).Some? else s[i] == '=' {
        assert s[i] == if i < 4 then q[i] else rest[i - 4];
      }
    }
  }

  // ---------- decoding in the browser ----------

  predicate AsciiSpace(c: char) {
    c == ' ' || c == '\t' || c == '\n' || c == '\r' || c as int == 12
  }

  function Unspaced(s: string): string {
    if s == "" then "" else (if AsciiSpace(s[0]) then "" else [s[0]]) + Unspaced(s[1..])
  }

  /** Up to two '=' are dropped from the end of a text of whole quanta. */
  function Unpadded(s: string): string {
    var n := |s|;
    if n == 0 || n % 4 != 0 || s[n - 1] != '=' then s
    else if s[n - 2] != '=' then s[..n - 1]
    else s[..n - 2]
  }

  /** Whole quanta, then two or three characters whose spare bits are ignored. */
  function Loosely(s: string): Option<Bytes>
    decreases |s|
  {
    if s == "" then Some([]) else
    if |s| == 1 || SextetOf(s[0]).None? || SextetOf(s[1]).None? then None else
    var x, y := SextetOf(s[0]).value, SextetOf(s[1]).value;
    if |s| == 2 then Some([B0(x, y)]) else
    if SextetOf(s[2]).None? then None else
    var z := SextetOf(s[2]).value;
    if |s| == 3 then Some([B0(x, y), B1(y, z)]) else
    match (SextetOf(s[3]), Loosely(s[4..]))
    case (Some(w), Some(rest)) => Some([B0(x, y), B1(y, z), B2(z, w)] + rest)
    case _ => None
  }

  /** `atob`, the forgiving decoder of the WHATWG Infra standard; None where it throws. */
  function Atob(s: string): Option<Bytes> {
    Loosely(Unpadded(Unspaced(s)))
  }

  lemma {:induction false} NothingToUnspace(s: string)
    requires forall i :: 0 <= i < |s| ==> !AsciiSpace(s[i])
    ensures Unspaced(s) == s
  {
    if s != "" {
      NothingToUnspace(s[1..]);
      assert s == [s[0]] + s[1..];
    }
  }

  function Pads(d: Bytes): nat {
    (3 - |d| % 3) % 3
  }

  /** The encoding without its padding. */
  function Bare(d: Bytes): string
    requires Pads(d) <= |Encode(d)|
  {
    Encode(d)[..|Encode(d)| - Pads(d)]
  }

  lemma QuantumSextets(d: Bytes)
    requires d != []
    ensures var q := Quantum(d);
            SextetOf(q[0]) == Some(S0(d[0])) && SextetOf(q[1]) == Some(S1(d[0], if |d| > 1 then d[1] else 0)) &&
            (|d| > 1 ==> SextetOf(q[2]) == Some(S2(d[1], if |d| > 2 then d[2] else 0))) &&
            (|d| > 2 ==> SextetOf(q[3]) == Some(S3(d[2])))
  {
    hide CharOf, SextetOf, S0, S1, S2, S3;
    var b1 := if |d| > 1 then d[1] else 0;
    var b2 := if |d| > 2 then d[2] else 0;
    TableInverts(S0(d[0]));
    TableInverts(S1(d[0], b1));
    TableInverts(S2(b1, b2));
    TableInverts(S3(b2));
  }

  lemma BareSplits(d: Bytes)
    requires d != []
    ensures Pads(d) <= |Encode(d)| && Pads(Rest(d)) <= |Encode(Rest(d))|
    ensures |d| < 3 ==> Bare(d) == Quantum(d)[..|d| + 1]
    ensures |d| >= 3 ==> Bare(d) == Quantum(d) + Bare(Rest(d))
  {
    hide Quantum;
    assert |d| >= 3 ==> Pads(d) == Pads(Rest(d));
    assert |d| < 3 ==> Encode(d) == Quantum(d);
  }

  lemma {:induction false} LooselyOfBare(d: Bytes)
    ensures Pads(d) <= |Encode(d)|
    ensures Loosely(Bare(d)) == Some(d)
    decreases |d|
  {
    hide Quantum, Encode, Bare, SextetOf, S0, S1, S2, S3, B0, B1, B2;
    if d == [] {
      NothingEncoded();
    } else {
      BareSplits(d);
      QuantumSextets(d);
      var b1 := if |d| > 1 then d[1] else 0;
      BytesOfSextets(d[0], b1, if |d| > 2 then d[2] else 0);
      if |d| >= 3 {
        LooselyOfBare(Rest(d));
        assert Bare(d)[4..] == Bare(Rest(d));
        assert d == [d[0], d[1], d[2]] + Rest(d);
      } else {
        assert d == if |d| == 1 then [d[0]] else [d[0], b1];
      }
    }
  }

  lemma NothingEncoded()
    ensures Encode([]) == "" && Bare([]) == ""
  {}

  lemma SpaceIsNoSextet(c: char)
    requires AsciiSpace(c)
    ensures SextetOf(c) == None && c != '='
  {}

  /** The client recovers exactly the bytes the server encoded. */
  lemma AtobOfEncode(d: Bytes)
    ensures Atob(Encode(d)) == Some(d)
  {
    hide Encode, SextetOf, AsciiSpace, Loosely;
    var s := Encode(d);
    EncodeShape(d);
    PadIsNoSextet();
    forall i | 0 <= i < |s| ensures !AsciiSpace(s[i]) {
      if AsciiSpace(s[i]) {
        SpaceIsNoSextet(s[i]);
      }
    }
    NothingToUnspace(s);
    LooselyOfBare(d);
    assert Unpadded(s) == Bare(d);
  }
}
