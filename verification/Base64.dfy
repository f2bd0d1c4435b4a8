/** Base 64 of RFC 4648, section 4, with padding (Go's StdEncoding) and, as section
    3.2 allows, without (RawStdEncoding). */
module Base64 {
  import opened Wrappers

  type Sextet = x: int | 0 <= x < 64

  predicate Plain(c: char) {
    c != '$' && c != '=' && c != '\n' && c != '\r'
  }

  function Char(v: Sextet): (c: char)
    ensures Index(c) == Some(v) && Plain(c)
  {
    if v < 26 then ('A' as int + v) as char
    else if v < 52 then ('a' as int + v - 26) as char
    else if v < 62 then ('0' as int + v - 52) as char
    else if v == 62 then '+' else '/'
  }

  function Index(c: char): (v: Option<Sextet>) {
    if 'A' <= c <= 'Z' then Some(c as int - 'A' as int)
    else if 'a' <= c <= 'z' then Some(c as int - 'a' as int + 26)
    else if '0' <= c <= '9' then Some(c as int - '0' as int + 52)
    else if c == '+' then Some(62)
    else if c == '/' then Some(63)
    else None
  }

  // ----- bytes to sextets and back -----

  /** The two sextets that a byte meets its neighbours in. */
  function Low2High4(x: int, y: int): Sextet
    requires 0 <= x < 256 && 0 <= y < 256
  {
    (x % 4) * 16 + y / 16
  }

  function Low4High2(x: int, y: int): Sextet
    requires 0 <= x < 256 && 0 <= y < 256
  {
    (x % 16) * 4 + y / 64
  }

  function Byte0(a: int, b: int): Byte
    requires 0 <= a < 64 && 0 <= b < 64
  {
    a * 4 + b / 16
  }

  function Byte1(b: int, c: int): Byte
    requires 0 <= b < 64 && 0 <= c < 64
  {
    (b % 16) * 16 + c / 4
  }

  function Byte2(c: int, d: int): Byte
    requires 0 <= c < 64 && 0 <= d < 64
  {
    (c % 4) * 64 + d
  }

  /** Three bytes survive the trip through four sextets. */
  lemma GroupRoundTrip(x: Byte, y: Byte, z: Byte)
    ensures Byte0(x / 4, Low2High4(x, y)) == x
    ensures Byte1(Low2High4(x, y), Low4High2(y, z)) == y
    ensures Byte2(Low4High2(y, z), z % 64) == z
  {
  }

  /** A last short group is padded with zero bits. */
  function Sextets(b: seq<Byte>): (v: seq<Sextet>) {
    if |b| == 0 then []
    else if |b| == 1 then [b[0] / 4, Low2High4(b[0], 0)]
    else if |b| == 2 then [b[0] / 4, Low2High4(b[0], b[1]), Low4High2(b[1], 0)]
    else [b[0] / 4, Low2High4(b[0], b[1]), Low4High2(b[1], b[2]), b[2] % 64] + Sextets(b[3..])
  }

  /** The bits left over in a last short group are not looked at. */
  function Bytes(v: seq<Sextet>): (r: Option<seq<Byte>>) {
    if |v| == 0 then Some([])
    else if |v| == 1 then None
    else if |v| == 2 then Some([Byte0(v[0], v[1])])
    else if |v| == 3 then Some([Byte0(v[0], v[1]), Byte1(v[1], v[2])])
    else
      match Bytes(v[4..])
      case None => None
      case Some(rest) => Some([Byte0(v[0], v[1]), Byte1(v[1], v[2]), Byte2(v[2], v[3])] + rest)
  }

  lemma NoBytes()
    ensures Bytes(Sextets([])) == Some([])
  {
  }

  lemma OneByte(x: Byte)
    ensures Bytes(Sextets([x])) == Some([x])
  {
    hide Low2High4, Low4High2, Byte0, Byte1, Byte2;
    GroupRoundTrip(x, 0, 0);
    var v := Sextets([x]);
    assert |v| == 2 && v[0] == x / 4 && v[1] == Low2High4(x, 0);
  }

  lemma TwoBytes(x: Byte, y: Byte)
    ensures Bytes(Sextets([x, y])) == Some([x, y])
  {
    GroupRoundTrip(x, y, 0);
    hide Low2High4, Low4High2, Byte0, Byte1;
    assert Sextets([x, y]) == [x / 4, Low2High4(x, y), Low4High2(y, 0)];
  }

  lemma ThreeBytes(x: Byte, y: Byte, z: Byte, rest: seq<Byte>)
    requires Bytes(Sextets(rest)) == Some(rest)
    ensures Bytes(Sextets([x, y, z] + rest)) == Some([x, y, z] + rest)
  {
    GroupRoundTrip(x, y, z);
    hide Low2High4, Low4High2, Byte0, Byte1, Byte2;
    var b := [x, y, z] + rest;
    var v := Sextets(b);
    assert b[3..] == rest;
    assert v == [x / 4, Low2High4(x, y), Low4High2(y, z), z % 64] + Sextets(rest);
    assert v[4..] == Sextets(rest);
  }

  lemma {:induction false} BytesOfSextets(b: seq<Byte>)
    ensures Bytes(Sextets(b)) == Some(b)
  {
    hide Sextets, Bytes;
    if |b| == 1 {
      OneByte(b[0]);
      assert b == [b[0]];
    } else if |b| == 2 {
      TwoBytes(b[0], b[1]);
      assert b == [b[0], b[1]];
    } else if |b| >= 3 {
      BytesOfSextets(b[3..]);
      ThreeBytes(b[0], b[1], b[2], b[3..]);
      assert b == [b[0], b[1], b[2]] + b[3..];
    } else {
      NoBytes();
      assert b == [];
    }
  }

  /** The sextets are the bytes, most significant bits first: three bytes and their four
      sextets are the same number, and a last short group is filled up with zero bits. */
  lemma SameNumber(x: Byte, y: Byte, z: Byte, rest: seq<Byte>)
    ensures var v := Sextets([x]); |v| == 2 && v[0] as int * 64 + v[1] == x * 16
    ensures var v := Sextets([x, y]); |v| == 3 && (v[0] as int * 64 + v[1]) * 64 + v[2] == (x as int * 256 + y) * 4
    ensures
      var v := Sextets([x, y, z] + rest);
      && |v| >= 4 && v[4..] == Sextets(rest)
      && ((v[0] as int * 64 + v[1]) * 64 + v[2]) * 64 + v[3] == (x as int * 256 + y) * 256 + z
  {
    var b := [x, y, z] + rest;
    assert b[3..] == rest;
    var v := Sextets(b);
    assert v == [x / 4, Low2High4(x, y), Low4High2(y, z), z % 64] + Sextets(rest);
  }

  // ----- the text -----

  function EncodeRaw(b: seq<Byte>): (s: string)
    ensures |s| == |Sextets(b)| && forall c | c in s :: Plain(c)
  {
    var v := Sextets(b);
    seq(|v|, i requires 0 <= i < |v| => Char(v[i]))
  }

  /** Carriage returns and newlines are ignored wherever they stand. */
  function StripNewlines(s: string): string {
    if s == "" then ""
    else if s[0] == '\n' || s[0] == '\r' then StripNewlines(s[1..])
    else [s[0]] + StripNewlines(s[1..])
  }

  function DecodeGroups(s: string): Option<seq<Byte>> {
    if exists c :: c in s && Index(c).None? then None
    else Bytes(seq(|s|, i requires 0 <= i < |s| => Index(s[i]).value))
  }

  /** base64.RawStdEncoding.DecodeString */
  function DecodeRaw(s: string): Option<seq<Byte>> {
    DecodeGroups(StripNewlines(s))
  }

  lemma GroupsRoundTrip(b: seq<Byte>)
    ensures DecodeGroups(EncodeRaw(b)) == Some(b)
  {
    var s := EncodeRaw(b);
    assert forall c | c in s :: Index(c).Some?;
    assert seq(|s|, i requires 0 <= i < |s| => Index(s[i]).value) == Sextets(b);
    BytesOfSextets(b);
  }

  lemma {:induction false} NothingToStrip(s: string)
    requires '\n' !in s && '\r' !in s
    ensures StripNewlines(s) == s
  {
    if s != "" {
      NothingToStrip(s[1..]);
      assert s == [s[0]] + s[1..];
    }
  }

  /** Decoding undoes encoding, for every byte string. */
  lemma RawRoundTrip(b: seq<Byte>)
    ensures DecodeRaw(EncodeRaw(b)) == Some(b)
    ensures '$' !in EncodeRaw(b)
  {
    GroupsRoundTrip(b);
    NothingToStrip(EncodeRaw(b));
  }

  lemma {:induction false} StripConcat(a: string, b: string)
    ensures StripNewlines(a + b) == StripNewlines(a) + StripNewlines(b)
  {
    if a == "" {
      assert a + b == b;
    } else {
      assert (a + b)[1..] == a[1..] + b;
      StripConcat(a[1..], b);
    }
  }

  /** Line breaks do not matter, wherever they stand. */
  lemma LineBreaksDoNotMatter(a: string, b: string)
    ensures DecodeRaw(a + "\n" + b) == DecodeRaw(a + "\r" + b) == DecodeRaw(a + b)
    ensures DecodeStd(a + "\n" + b) == DecodeStd(a + "\r" + b) == DecodeStd(a + b)
  {
    StripConcat(a, b);
    StripConcat(a, "\n" + b);
    StripConcat(a, "\r" + b);
    StripConcat("\n", b);
    StripConcat("\r", b);
    assert a + "\n" + b == a + ("\n" + b) && a + "\r" + b == a + ("\r" + b);
  }

  lemma {:induction false} BytesExist(v: seq<Sextet>)
    ensures Bytes(v).Some? <==> |v| % 4 != 1
  {
    if |v| >= 4 {
      BytesExist(v[4..]);
      assert |v| % 4 == |v[4..]| % 4;
    }
  }

  /** Without line breaks exactly the texts over the alphabet are decoded whose last group
      has more than one character. */
  lemma RawDecodes(s: string)
    requires '\n' !in s && '\r' !in s
    ensures DecodeRaw(s).Some? <==>
            && |s| % 4 != 1
            && forall c | c in s ::
                 'A' <= c <= 'Z' || 'a' <= c <= 'z' || '0' <= c <= '9' || c == '+' || c == '/'
  {
    NothingToStrip(s);
    if forall c | c in s :: Index(c).Some? {
      BytesExist(seq(|s|, i requires 0 <= i < |s| => Index(s[i]).value));
    }
  }

  /** The alphabet is capitals, small letters, digits, plus and slash, in this order. */
  lemma AlphabetInOrder(v: Sextet)
    ensures Char(0) == 'A' && Char(26) == 'a' && Char(52) == '0' && Char(62) == '+' && Char(63) == '/'
    ensures v < 61 && v != 25 && v != 51 ==> Char(v + 1) as int == Char(v) as int + 1
  {
  }

  // ----- with padding -----

  function Padding(n: nat): string {
    if n % 3 == 1 then "==" else if n % 3 == 2 then "=" else ""
  }

  /** base64.StdEncoding.EncodeToString */
  function EncodeStd(b: seq<Byte>): string {
    EncodeRaw(b) + Padding(|b|)
  }

  /** Up to two pad characters off the end. */
  function Unpad(s: string): string {
    if s != "" && s[|s| - 1] == '=' then
      if |s| >= 2 && s[|s| - 2] == '=' then s[..|s| - 2] else s[..|s| - 1]
    else s
  }

  /** base64.StdEncoding.DecodeString: whole groups of four, padded only at the end. */
  function DecodeStd(s: string): Option<seq<Byte>> {
    var t := StripNewlines(s);
    if |t| % 4 != 0 then None else DecodeGroups(Unpad(t))
  }

  lemma PaddingPeriod(n: nat)
    requires n >= 3
    ensures Padding(n) == Padding(n - 3)
  {
    assert n % 3 == (n - 3) % 3;
  }

  /** How many groups of four the padded text has. */
  lemma {:induction false} Groups(b: seq<Byte>) returns (groups: nat)
    ensures |Sextets(b)| + |Padding(|b|)| == 4 * groups
  {
    if |b| >= 3 {
      hide Padding;
      PaddingPeriod(|b|);
      var rest := Groups(b[3..]);
      groups := rest + 1;
    } else {
      groups := if b == [] then 0 else 1;
    }
  }

  lemma {:induction false} EncodedLength(b: seq<Byte>)
    ensures |EncodeRaw(b) + Padding(|b|)| % 4 == 0
  {
    var groups := Groups(b);
    assert |EncodeRaw(b) + Padding(|b|)| == 4 * groups;
    hide *;
  }

  lemma UnpadPadded(s: string, n: nat)
    requires '=' !in s
    ensures Unpad(s + Padding(n)) == s
  {
    assert s != "" ==> s[|s| - 1] in s;
    assert (s + "==")[..|s|] == s && (s + "=")[..|s|] == s && s + "" == s;
  }

  /** The padded form is read in whole groups of four only. */
  lemma StdInWholeGroups(s: string)
    requires '\n' !in s && '\r' !in s && DecodeStd(s).Some?
    ensures |s| % 4 == 0
  {
    NothingToStrip(s);
  }

  lemma StdRoundTrip(b: seq<Byte>)
    ensures DecodeStd(EncodeStd(b)) == Some(b)
    ensures b != [] ==> EncodeStd(b) != ""
  {
    EncodedLength(b);
    GroupsRoundTrip(b);
    NothingToStrip(EncodeStd(b));
    UnpadPadded(EncodeRaw(b), |b|);
  }

  /** Test vectors of section 10 of RFC 4648. */
  lemma {:induction false} ShortVectors()
    ensures EncodeStd([]) == ""
    ensures EncodeStd([102]) == "Zg=="
    ensures EncodeStd([102, 111]) == "Zm8="
  {
    SextetsOfNone();
    OneShort(102);
    TwoShort(102, 111);
    hide Sextets;
  }

  lemma {:induction false} LongVector()
    ensures EncodeStd([102, 111, 111, 98, 97, 114]) == "Zm9vYmFy"
  {
    SextetsOfNone();
    Whole(98, 97, 114, []);
    Whole(102, 111, 111, [98, 97, 114]);
    assert [102, 111, 111, 98, 97, 114] == [102, 111, 111] + [98, 97, 114];
    assert [98, 97, 114] + [] == [98, 97, 114];
    hide Sextets;
    assert Sextets([102, 111, 111, 98, 97, 114]) == [25, 38, 61, 47, 24, 38, 5, 50];
  }

  lemma SextetsOfNone()
    ensures Sextets([]) == []
  {
  }

  lemma OneShort(x: Byte)
    ensures Sextets([x]) == [x / 4, (x % 4) * 16]
  {
  }

  lemma TwoShort(x: Byte, y: Byte)
    ensures Sextets([x, y]) == [x / 4, (x % 4) * 16 + y / 16, (y % 16) * 4]
  {
  }

  lemma Whole(x: Byte, y: Byte, z: Byte, rest: seq<Byte>)
    ensures Sextets([x, y, z] + rest)
            == [x / 4, (x % 4) * 16 + y / 16, (y % 16) * 4 + z / 64, z % 64] + Sextets(rest)
  {
    assert ([x, y, z] + rest)[3..] == rest;
  }
}
