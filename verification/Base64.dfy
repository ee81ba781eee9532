/** Base64 (section 4 of RFC 4648) as the snapshot transfer uses it. */
module Base64 {
  import opened Wrappers

  type sextet = n: nat | n < 64

  /** The value of a character, 64 if it is not of the alphabet. */
  function Six(c: char): (v: nat)
    ensures v <= 64
  {
    if 'A' <= c <= 'Z' then c as int - 'A' as int
    else if 'a' <= c <= 'z' then c as int - 'a' as int + 26
    else if '0' <= c <= '9' then c as int - '0' as int + 52
    else if c == '+' then 62
    else if c == '/' then 63
    else 64
  }

  /** The letters of the alphabet in order. */
  function Letter(v: sextet): char {
    if v < 26 then 'A' + v as char
    else if v < 52 then 'a' + (v - 26) as char
    else if v < 62 then '0' + (v - 52) as char
    else if v == 62 then '+' else '/'
  }

  /** The alphabet of the standard: A to Z, a to z, 0 to 9, plus and slash; nothing else is a letter. */
  lemma Alphabet(v: sextet, c: char)
    ensures Letter(0) == 'A' && Letter(25) == 'Z' && Letter(26) == 'a' && Letter(51) == 'z'
    ensures Letter(52) == '0' && Letter(61) == '9' && Letter(62) == '+' && Letter(63) == '/'
    ensures v !in {25, 51, 61, 62, 63} ==> Letter(v + 1) as int == Letter(v) as int + 1
    ensures Six(c) < 64 ==> Letter(Six(c)) == c
    ensures Six(c) == 64 <==> !('A' <= c <= 'Z' || 'a' <= c <= 'z' || '0' <= c <= '9' || c == '+' || c == '/')
  {
  }

  lemma SixOfLetter(v: sextet)
    ensures Six(Letter(v)) == v
  {
  }

  // ----- encoding -----

  function Group(a: byte, b: byte, c: byte): seq<sextet> {
    [a / 4, (a % 4) * 16 + b / 16, (b % 16) * 4 + c / 64, c % 64]
  }

  /** The significant six-bit groups of a byte string. */
  function Sextets(s: seq<byte>): (r: seq<sextet>) {
    if |s| == 0 then []
    else if |s| == 1 then Group(s[0], 0, 0)[..2]
    else if |s| == 2 then Group(s[0], s[1], 0)[..3]
    else Group(s[0], s[1], s[2]) + Sextets(s[3..])
  }

  function Letters(v: seq<sextet>): string { seq(|v|, i requires 0 <= i < |v| => Letter(v[i])) }

  function Padding(n: nat): string { if n % 3 == 1 then "==" else if n % 3 == 2 then "=" else "" }

  function Encoded(s: seq<byte>): string { Letters(Sextets(s)) + Padding(|s|) }

  // Examples of section 10 of RFC 4648: "f", "fo" and "foo".

  lemma ExampleOne()
    ensures Encoded([102]) == "Zg=="
  {
    var v: seq<sextet> := [25, 32];
    assert Sextets([102]) == v;
    hide Sextets;
    assert Letters(v) == "Zg";
  }

  lemma ExampleTwo()
    ensures Encoded([102, 111]) == "Zm8="
  {
    var v: seq<sextet> := [25, 38, 60];
    assert Sextets([102, 111]) == v;
    hide Sextets;
    assert Letters(v) == "Zm8";
  }

  lemma ExampleThree()
    ensures Encoded([102, 111, 111]) == "Zm9v"
  {
    var v: seq<sextet> := [25, 38, 61, 47];
    assert [102, 111, 111][3..] == [];
    assert Sextets([102, 111, 111]) == v;
    hide Sextets;
    assert Letters(v) == "Zm9v";
  }

  function EncodeLen(n: nat): nat { (n + 2) / 3 * 4 + 1 }

  lemma {:induction false} EncodedLength(s: seq<byte>)
    ensures |Encoded(s)| + 1 == EncodeLen(|s|)
    decreases |s|
  {
    if |s| >= 3 {
      EncodedLength(s[3..]);
      assert (|s| - 3) % 3 == |s| % 3 && (|s| - 3 + 2) / 3 == (|s| + 2) / 3 - 1;
    }
  }

  // ----- decoding -----

  // The bytes that adjacent six-bit values make up; a byte keeps the low eight bits of a shift.

  function First(a: nat, b: nat): byte
    requires a < 64 && b < 64
  {
    (a * 4) % 256 + b / 16
  }

  function Second(b: nat, c: nat): byte
    requires b < 64 && c < 64
  {
    (b * 16) % 256 + c / 4
  }

  function Third(c: nat, d: nat): byte
    requires c < 64 && d < 64
  {
    (c * 64) % 256 + d
  }

  /** The bytes of up to four six-bit values. */
  function Tail(v: seq<sextet>): seq<byte>
    requires |v| <= 4
  {
    if |v| <= 1 then []
    else if |v| == 2 then [First(v[0], v[1])]
    else if |v| == 3 then [First(v[0], v[1]), Second(v[1], v[2])]
    else [First(v[0], v[1]), Second(v[1], v[2]), Third(v[2], v[3])]
  }

  function Bytes(v: seq<sextet>): seq<byte>
    decreases |v|
  {
    if |v| <= 4 then Tail(v) else Tail(v[..4]) + Bytes(v[4..])
  }

  /** How many leading characters are of the alphabet. */
  function Run(coded: string): (n: nat)
    ensures n <= |coded| && forall i | 0 <= i < n :: Six(coded[i]) < 64
    ensures n < |coded| ==> Six(coded[n]) == 64
  {
    if coded == [] || Six(coded[0]) == 64 then 0 else 1 + Run(coded[1..])
  }

  function Values(coded: string): (v: seq<sextet>)
    requires forall i | 0 <= i < |coded| :: Six(coded[i]) < 64
    ensures |v| == |coded|
  {
    seq(|coded|, i requires 0 <= i < |coded| => Six(coded[i]))
  }

  function Decoded(coded: string): seq<byte> { Bytes(Values(coded[..Run(coded)])) }

  function DecodeLen(coded: string): nat { (Run(coded) + 3) / 4 * 3 + 1 }

  /** The number of bytes decoded, for any input. */
  lemma {:induction false} BytesLength(v: seq<sextet>, q: nat, r: nat)
    requires |v| == 4 * q + r && r < 4
    ensures |Bytes(v)| == 3 * q + (if r > 1 then r - 1 else 0)
    decreases |v|
  {
    if |v| > 4 { BytesLength(v[4..], q - 1, r); }
  }

  // ----- decoding undoes encoding -----

  lemma FirstBack(a: byte, b: byte)
    ensures First(a / 4, (a % 4) * 16 + b / 16) == a
  {
  }

  lemma SecondBack(a: byte, b: byte, c: byte)
    ensures Second((a % 4) * 16 + b / 16, (b % 16) * 4 + c / 64) == b
  {
  }

  lemma ThirdBack(b: byte, c: byte)
    ensures Third((b % 16) * 4 + c / 64, c % 64) == c
  {
  }

  lemma WholeGroup(a: byte, b: byte, c: byte)
    ensures Tail(Group(a, b, c)) == [a, b, c]
  {
    FirstBack(a, b);
    SecondBack(a, b, c);
    ThirdBack(b, c);
    hide First, Second, Third;
  }

  lemma TwoOfGroup(a: byte, b: byte)
    ensures Tail(Group(a, b, 0)[..3]) == [a, b]
  {
    FirstBack(a, b);
    SecondBack(a, b, 0);
    hide First, Second, Third;
  }

  lemma OneOfGroup(a: byte)
    ensures Tail(Group(a, 0, 0)[..2]) == [a]
  {
    FirstBack(a, 0);
    hide First, Second, Third;
  }

  lemma GroupLength(a: byte, b: byte, c: byte)
    ensures |Group(a, b, c)| == 4
  {
  }

  lemma SomeSextets(s: seq<byte>)
    requires s != []
    ensures Sextets(s) != []
  {
  }

  lemma {:induction false} BytesOfSextets(s: seq<byte>)
    ensures Bytes(Sextets(s)) == s
    decreases |s|
  {
    hide Group, Tail;
    if |s| == 0 {
      NoBytes();
    } else if |s| == 1 {
      GroupLength(s[0], 0, 0);
      OneOfGroup(s[0]);
    } else if |s| == 2 {
      GroupLength(s[0], s[1], 0);
      TwoOfGroup(s[0], s[1]);
    } else {
      var v, rest := Group(s[0], s[1], s[2]), Sextets(s[3..]);
      GroupLength(s[0], s[1], s[2]);
      WholeGroup(s[0], s[1], s[2]);
      BytesOfSextets(s[3..]);
      if |s| == 3 {
        assert v + rest == v;
      } else {
        SomeSextets(s[3..]);
        assert (v + rest)[..4] == v && (v + rest)[4..] == rest;
      }
      assert s == [s[0], s[1], s[2]] + s[3..];
    }
  }

  lemma NoBytes()
    ensures Tail([]) == []
  {
  }

  lemma {:induction false} RunOfLetters(v: seq<sextet>, t: string)
    requires t == [] || Six(t[0]) == 64
    ensures Run(Letters(v) + t) == |v|
    decreases |v|
  {
    if v == [] {
      assert Letters(v) + t == t;
    } else {
      SixOfLetter(v[0]);
      assert (Letters(v) + t)[1..] == Letters(v[1..]) + t;
      RunOfLetters(v[1..], t);
    }
  }

  lemma ValuesOfLetters(v: seq<sextet>)
    ensures (forall i | 0 <= i < |v| :: Six(Letters(v)[i]) < 64) && Values(Letters(v)) == v
  {
    forall i | 0 <= i < |v| ensures Six(Letters(v)[i]) == v[i] { SixOfLetter(v[i]); }
  }

  /** Decoding what was encoded gives the bytes back, whatever follows the terminator. */
  lemma DecodeEncode(s: seq<byte>, t: string)
    ensures Decoded(Encoded(s) + "\0" + t) == s
  {
    hide Run, Letters, Values, Bytes, Sextets;
    var v := Sextets(s);
    var rest := Padding(|s|) + "\0" + t;
    assert Encoded(s) + "\0" + t == Letters(v) + rest;
    RunOfLetters(v, rest);
    LettersLength(v);
    assert (Letters(v) + rest)[..|v|] == Letters(v);
    ValuesOfLetters(v);
    BytesOfSextets(s);
  }

  lemma LettersLength(v: seq<sextet>)
    ensures |Letters(v)| == |v|
  {
  }

  // ----- the loops -----

  lemma EncodedFrom(s: seq<byte>, i: nat)
    requires i + 3 <= |s|
    ensures Encoded(s[i..]) == Letters(Group(s[i], s[i + 1], s[i + 2])) + Encoded(s[i + 3..])
  {
    var v, rest := Group(s[i], s[i + 1], s[i + 2]), Sextets(s[i + 3..]);
    assert s[i..][3..] == s[i + 3..];
    assert Sextets(s[i..]) == v + rest;
    assert Letters(v + rest) == Letters(v) + Letters(rest);
    assert (|s| - i) % 3 == (|s| - i - 3) % 3;
  }

  /** Stores characters one after another. */
  method Store(buf: array<char>, p: nat, text: string) returns (next: nat)
    requires p + |text| <= buf.Length
    modifies buf
    ensures next == p + |text| && buf[..next] == old(buf[..p]) + text
  {
    var i := 0;
    while i < |text|
      invariant 0 <= i <= |text| && buf[..p + i] == old(buf[..p]) + text[..i]
    {
      buf[p + i] := text[i];
      assert text[..i + 1] == text[..i] + [text[i]];
      assert buf[..p + i + 1] == buf[..p + i] + [text[i]];
      i := i + 1;
    }
    assert text[..i] == text;
    return p + |text|;
  }

  /** Encodes into a buffer of the computed length, which it fills exactly. */
  method Encode(s: seq<byte>) returns (encoded: array<char>, n: nat)
    ensures fresh(encoded) && n == encoded.Length == EncodeLen(|s|) && encoded[..] == Encoded(s) + "\0"
  {
    hide Encoded, Letters, Group;
    encoded := new char[EncodeLen(|s|)];
    EncodedLength(s);
    var i: nat, p: nat := 0, 0;
    assert s[0..] == s && encoded[..0] == "";
    while i + 2 < |s|
      invariant 0 <= i <= |s| && p <= encoded.Length && fresh(encoded)
      invariant encoded[..p] + Encoded(s[i..]) == Encoded(s)
    {
      EncodedFrom(s, i);
      ghost var done := encoded[..p];
      var group := Letters(Group(s[i], s[i + 1], s[i + 2]));
      assert |done + group| <= |Encoded(s)| by { assert done + (group + Encoded(s[i + 3..])) == Encoded(s); }
      p := Store(encoded, p, group);
      assert done + group + Encoded(s[i + 3..]) == done + (group + Encoded(s[i + 3..]));
      i := i + 3;
    }
    ghost var before := encoded[..p];
    var last := LastGroup(s[i..]);
    assert |before + last| == |Encoded(s)|;
    p := Store(encoded, p, last);
    p := Store(encoded, p, "\0");
    n := p;
    assert encoded[..] == encoded[..p];
  }

  /** The last one or two bytes, padded. */
  method LastGroup(rest: seq<byte>) returns (text: string)
    requires |rest| <= 2
    ensures text == Encoded(rest)
  {
    if |rest| == 0 {
      text := "";
      assert Letters([]) == "";
    } else if |rest| == 1 {
      text := [Letter(rest[0] / 4), Letter((rest[0] % 4) * 16), '=', '='];
      assert Letters(Sextets(rest)) == [Letter(rest[0] / 4), Letter((rest[0] % 4) * 16)];
    } else {
      text := [Letter(rest[0] / 4), Letter((rest[0] % 4) * 16 + rest[1] / 16), Letter((rest[1] % 16) * 4), '='];
      assert Letters(Sextets(rest)) ==
             [Letter(rest[0] / 4), Letter((rest[0] % 4) * 16 + rest[1] / 16), Letter((rest[1] % 16) * 4)];
    }
  }

  method CountRun(coded: string) returns (n: nat)
    ensures n == Run(coded)
  {
    n := 0;
    while n < |coded| && Six(coded[n]) < 64
      invariant n <= |coded| && n + Run(coded[n..]) == Run(coded)
    {
      n := n + 1;
    }
  }

  lemma BytesFrom(v: seq<sextet>, i: nat)
    requires i + 4 < |v|
    ensures Bytes(v[i..]) == [First(v[i], v[i + 1]), Second(v[i + 1], v[i + 2]), Third(v[i + 2], v[i + 3])] +
            Bytes(v[i + 4..])
  {
    hide First, Second, Third;
    assert v[i..][..4] == [v[i], v[i + 1], v[i + 2], v[i + 3]] && v[i..][4..] == v[i + 4..];
  }

  /** The arithmetic of the returned count. */
  lemma CountIsExact(run: nat, q: nat, left: nat)
    requires run == 4 * q + left && left <= 4 && (left == 0 ==> q == 0)
    ensures (run + 3) / 4 * 3 - (4 - left) % 4 == 3 * q + if left > 1 then left - 1 else 0
  {
    assert (run + 3) / 4 == q + (left + 3) / 4;
  }

  /** Decodes; the buffer of the precomputed length always suffices, and the count returned is exact. */
  method Decode(coded: string) returns (plain: seq<byte>, n: int)
    ensures plain == Decoded(coded) && n == |plain| && n + 1 <= DecodeLen(coded)
  {
    hide First, Second, Third, Bytes, Tail, Run;
    var run := CountRun(coded);
    var v := Values(coded[..run]);
    plain := [];
    var left: nat, at: nat := run, 0;
    ghost var q: nat := 0;
    assert v[0..] == v && plain + Bytes(v) == Bytes(v);
    while left > 4
      invariant left + at == run && at == 4 * q && (left == 0 ==> q == 0)
      invariant |plain| == 3 * q && plain + Bytes(v[at..]) == Decoded(coded)
    {
      BytesFrom(v, at);
      ghost var rest := Bytes(v[at + 4..]);
      var three := [First(v[at], v[at + 1]), Second(v[at + 1], v[at + 2]), Third(v[at + 2], v[at + 3])];
      assert plain + (three + rest) == plain + three + rest;
      plain := plain + three;
      at, left := at + 4, left - 4;
      q := q + 1;
    }
    LastBytes(v[at..]);
    plain := plain + Tail(v[at..]);
    CountIsExact(run, q, left);
    n := (run + 3) / 4 * 3 - (4 - left) % 4;
  }

  lemma LastBytes(v: seq<sextet>)
    requires |v| <= 4
    ensures Bytes(v) == Tail(v) && |Tail(v)| == if |v| > 1 then |v| - 1 else 0
  {
  }
}
