/** The two input formats of the corpus generator: a plaintext wordlist, and
    HIBP's "HASH:count" file. */
module BreachInput {
  import opened Wrappers
  import opened BreachCorpus
  import opened Text

  // ----- bufio.ScanLines -----

  function TrimCR(line: string): string {
    if line != "" && line[|line| - 1] == '\r' then line[..|line| - 1] else line
  }

  /** The scanner drops the newline and one carriage return before it. */
  function ScanLines(text: string): seq<string> {
    if text == "" then []
    else
      var i := IndexOf(text, '\n');
      if i == |text| then [TrimCR(text)] else [TrimCR(text[..i])] + ScanLines(text[i + 1..])
  }

  /** A text is cut at its newlines, each line loses one carriage return at its end, and a last
      line needs no newline. */
  lemma {:induction false} ScansLineByLine(line: string, rest: string, stripped: string)
    requires '\n' !in line
    requires line == stripped + "\r" || (line == stripped && (line == "" || line[|line| - 1] != '\r'))
    ensures ScanLines("") == [] && (line != "" ==> ScanLines(line) == [stripped])
    ensures ScanLines(line + "\n" + rest) == [stripped] + ScanLines(rest)
  {
    assert TrimCR(line) == stripped;
    hide TrimCR;
    var s := line + "\n" + rest;
    assert s[..|line|] == line && s[|line| + 1..] == rest;
    IndexOfIs(s, '\n', |line|);
    IndexOfAbsent(line, '\n');
  }

  // ----- the wordlist -----

  /** The bytes hashed for a scanned line: none for a blank line or a comment. */
  function Word(line: string): Option<string> {
    var w := TrimCR(line);
    if w == "" || w[0] == '#' then None else Some(w)
  }

  /** One more carriage return goes; what starts with '#' is a comment, wherever a line is
      otherwise taken as it is, blanks and all. */
  lemma WordIs(line: string, w: string)
    requires line == w + "\r" || (line == w && (line == "" || line[|line| - 1] != '\r'))
    ensures Word(line) == if w == "" || w[0] == '#' then None else Some(w)
  {
    assert TrimCR(line) == w;
  }

  function WordDigests(sha1: string -> Digest, lines: seq<string>): seq<Digest> {
    if lines == [] then []
    else
      var init := WordDigests(sha1, lines[..|lines| - 1]);
      var word := Word(lines[|lines| - 1]);
      if word.Some? then init + [sha1(word.value)] else init
  }

  method ReadWordlist(sha1: string -> Digest, lines: seq<string>) returns (digests: seq<Digest>)
    ensures digests == WordDigests(sha1, lines)
  {
    digests := [];
    for i := 0 to |lines|
      invariant digests == WordDigests(sha1, lines[..i])
    {
      assert lines[..i + 1][..i] == lines[..i];
      var line := TrimCR(lines[i]);
      if line != "" && line[0] != '#' {
        digests := digests + [sha1(line)];
      }
    }
    assert lines[..|lines|] == lines;
  }

  lemma {:induction false} WordlistMembers(sha1: string -> Digest, lines: seq<string>, d: Digest)
    ensures d in WordDigests(sha1, lines)
            <==> exists line :: line in lines && Word(line).Some? && sha1(Word(line).value) == d
  {
    if lines != [] {
      WordlistMembers(sha1, lines[..|lines| - 1], d);
      var last := lines[|lines| - 1];
      assert lines == lines[..|lines| - 1] + [last];
      assert forall line :: line in lines <==> line in lines[..|lines| - 1] || line == last;
    }
  }

  /** From wordlist to answer: a password is reported compromised exactly when
      its digest is that of some word of the list. In particular every word of
      the list is. */
  lemma WordlistScreens(sha1: string -> Digest, text: string, password: string)
    ensures
      Contains(Corpus(WordDigests(sha1, ScanLines(text))), sha1(password)) <==>
      exists line :: line in ScanLines(text) && Word(line).Some? && sha1(Word(line).value) == sha1(password)
  {
    var digests := WordDigests(sha1, ScanLines(text));
    CorpusIsMembership(digests);
    WordlistMembers(sha1, ScanLines(text), sha1(password));
  }

  lemma {:induction false} ScansOneLine(raw: string)
    requires '\n' !in raw
    ensures ScanLines(raw + "\n") == [TrimCR(raw)]
  {
    hide TrimCR;
    var s := raw + "\n";
    assert s[..|raw|] == raw && s[|raw| + 1..] == "";
    IndexOfIs(s, '\n', |raw|);
  }

  lemma {:induction false} TrimTwice(raw: string)
    ensures TrimCR(TrimCR(raw)) == TrimCR(raw) <==> !(|raw| >= 2 && raw[|raw| - 2..] == "\r\r")
  {
    if |raw| >= 2 {
      assert raw[|raw| - 2..] == [raw[|raw| - 2], raw[|raw| - 1]];
    }
  }

  /** A line of the file, as it stands before its newline: the scanner strips one carriage
      return and the reader another. The hashed word is the line without its line ending
      exactly if the line does not end in two. */
  lemma {:induction false} StripsTwice(raw: string)
    requires '\n' !in raw
    ensures ScanLines(raw + "\n") == [TrimCR(raw)]
    ensures Word(TrimCR(raw)) == Some(TrimCR(raw))
            <==> TrimCR(raw) != "" && raw[0] != '#' && !(|raw| >= 2 && raw[|raw| - 2..] == "\r\r")
  {
    ScansOneLine(raw);
    TrimTwice(raw);
    hide ScanLines;
  }

  /** So of a word that the file ends with two carriage returns both are gone. */
  lemma TwoReturnsGo(word: string)
    requires '\n' !in word && word != "" && word[0] != '#' && word[|word| - 1] != '\r'
    ensures ScanLines(word + "\r\r" + "\n") == [word + "\r"] && Word(word + "\r") == Some(word)
  {
    assert TrimCR(word + "\r\r") == word + "\r";
    assert TrimCR(word + "\r") == word;
    hide TrimCR, ScanLines;
    ScansOneLine(word + "\r\r");
  }

  // ----- HIBP -----

  function HexValue(c: char): (v: Option<int>)
    ensures v.Some? ==> 0 <= v.value < 16
  {
    if '0' <= c <= '9' then Some(c as int - '0' as int)
    else if 'a' <= c <= 'f' then Some(c as int - 'a' as int + 10)
    else if 'A' <= c <= 'F' then Some(c as int - 'A' as int + 10)
    else None
  }

  /** hex.DecodeString; every failure is one error here. */
  function HexDecode(s: string): (r: Option<seq<Byte>>) {
    if s == "" then Some([])
    else if |s| == 1 then None
    else
      match (HexValue(s[0]), HexValue(s[1]), HexDecode(s[2..]))
      case (Some(hi), Some(lo), Some(rest)) => Some([16 * hi + lo] + rest)
      case _ => None
  }

  function HexDigit(v: int, upper: bool): char
    requires 0 <= v < 16
  {
    if v < 10 then ('0' as int + v) as char
    else if upper then ('A' as int + v - 10) as char
    else ('a' as int + v - 10) as char
  }

  function HexEncode(bytes: seq<Byte>, upper: bool): (s: string)
    ensures |s| == 2 * |bytes|
  {
    if bytes == [] then ""
    else [HexDigit(bytes[0] / 16, upper), HexDigit(bytes[0] % 16, upper)] + HexEncode(bytes[1..], upper)
  }

  lemma HexPair(b: Byte, upper: bool)
    ensures HexValue(HexDigit(b / 16, upper)) == Some(b / 16) && HexValue(HexDigit(b % 16, upper)) == Some(b % 16)
    ensures HexDigit(b / 16, upper) != ':' && HexDigit(b % 16, upper) != ':'
    ensures !IsSpace(HexDigit(b / 16, upper)) && !IsSpace(HexDigit(b % 16, upper))
  {
  }

  /** Hexadecimal digits, in either case and no others. */
  lemma HexDigitsAre(v: int, c: char)
    requires 0 <= v < 16
    ensures HexDigit(v, true) == "0123456789ABCDEF"[v] && HexDigit(v, false) == "0123456789abcdef"[v]
    ensures HexValue(c) == Some(v) <==> c == "0123456789ABCDEF"[v] || c == "0123456789abcdef"[v]
  {
  }

  /** A pair of them is a byte, the high half first; an odd digit makes the text invalid. */
  lemma HexPairs(hi: char, lo: char, rest: string)
    ensures HexDecode("") == Some([]) && HexDecode([hi]) == None
    ensures HexDecode([hi, lo] + rest) ==
              if HexValue(hi).Some? && HexValue(lo).Some? && HexDecode(rest).Some?
              then Some([16 * HexValue(hi).value + HexValue(lo).value] + HexDecode(rest).value) else None
  {
    assert ([hi, lo] + rest)[2..] == rest;
  }

  /** Decoding is case-agnostic: either spelling gives the raw bytes back. */
  lemma {:induction false} HexRoundTrip(bytes: seq<Byte>, upper: bool)
    ensures HexDecode(HexEncode(bytes, upper)) == Some(bytes)
    ensures ':' !in HexEncode(bytes, upper)
    ensures forall c | c in HexEncode(bytes, upper) :: !IsSpace(c)
  {
    if bytes != [] {
      hide HexDigit, HexValue, IsSpace;
      HexRoundTrip(bytes[1..], upper);
      HexPair(bytes[0], upper);
      var s := HexEncode(bytes, upper);
      assert s[2..] == HexEncode(bytes[1..], upper);
      assert bytes == [bytes[0]] + bytes[1..];
    }
  }

  function ParseHash(line: string): Result<Digest, GenError> {
    match HexDecode(line[..IndexOf(line, ':')])
    case None => Err(BadHex)
    case Some(raw) => if |raw| == DIGEST_LEN then Ok(raw) else Err(WrongLength)
  }

  /** A line is the hash alone, or the hash, a colon and anything. The hash must be
      hexadecimal, and of 20 bytes. */
  lemma {:induction false} ParseHashIs(hex: string, more: string)
    requires ':' !in hex
    ensures ParseHash(hex) == ParseHash(hex + ":" + more)
    ensures ParseHash(hex) == match HexDecode(hex)
                              case None => Err(BadHex)
                              case Some(raw) => if |raw| == 20 then Ok(raw) else Err(WrongLength)
  {
    var line := hex + ":" + more;
    assert line[..|hex|] == hex;
    IndexOfIs(line, ':', |hex|);
    IndexOfAbsent(hex, ':');
    assert hex[..|hex|] == hex;
    hide HexDecode;
  }

  function Prepend(ds: seq<Digest>, r: Result<seq<Digest>, GenError>): Result<seq<Digest>, GenError> {
    if r.Ok? then Ok(ds + r.value) else r
  }

  lemma PrependTwice(a: seq<Digest>, b: seq<Digest>, r: Result<seq<Digest>, GenError>)
    ensures Prepend(a + b, r) == Prepend(a, Prepend(b, r))
    ensures Prepend([], r) == r
  {
    if r.Ok? {
      assert a + b + r.value == a + (b + r.value);
      assert [] + r.value == r.value;
    }
  }

  /** The first `n` hashes of the file, or all of them when n <= 0; blank lines are skipped. */
  function HibpDigests(lines: seq<string>, n: int, count: nat): Result<seq<Digest>, GenError> {
    if lines == [] || (n > 0 && count >= n) then Ok([])
    else
      var line := TrimSpace(lines[0]);
      if line == "" then HibpDigests(lines[1..], n, count)
      else
        match ParseHash(line)
        case Err(e) => Err(e)
        case Ok(d) => Prepend([d], HibpDigests(lines[1..], n, count + 1))
  }

  method ReadHIBP(lines: seq<string>, n: int) returns (r: Result<seq<Digest>, GenError>)
    ensures r == HibpDigests(lines, n, 0)
  {
    var digests: seq<Digest> := [];
    var count := 0;
    var i := 0;
    hide TrimSpace, ParseHash;
    assert lines[0..] == lines;
    PrependTwice([], [], HibpDigests(lines, n, 0));
    while i < |lines|
      invariant i <= |lines| && count >= 0
      invariant HibpDigests(lines, n, 0) == Prepend(digests, HibpDigests(lines[i..], n, count))
    {
      if n > 0 && count >= n {
        break;
      }
      var line := TrimSpace(lines[i]);
      assert lines[i..][1..] == lines[i + 1..];
      if line != "" {
        var parsed := ParseHash(line);
        if parsed.Err? {
          return Err(parsed.error);
        }
        PrependTwice(digests, [parsed.value], HibpDigests(lines[i + 1..], n, count + 1));
        digests := digests + [parsed.value];
        count := count + 1;
      }
      i := i + 1;
    }
    assert digests + [] == digests;
    return Ok(digests);
  }

  predicate HashLine(line: string, d: Digest) {
    |line| > 2 * DIGEST_LEN && line[..2 * DIGEST_LEN] == HexEncode(d, true)
    && line[2 * DIGEST_LEN] == ':' && !IsSpace(line[|line| - 1])
  }

  lemma HashLineParses(line: string, d: Digest)
    requires HashLine(line, d)
    ensures TrimSpace(line) == line && ParseHash(line) == Ok(d)
  {
    HexRoundTrip(d, true);
    var hex := line[..2 * DIGEST_LEN];
    assert line[0] == hex[0] && hex[0] in HexEncode(d, true);
    IndexOfIs(line, ':', 2 * DIGEST_LEN);
  }

  function FirstN(ds: seq<Digest>, n: int, count: nat): seq<Digest>
    requires n > 0 ==> count <= n
  {
    if n > 0 && |ds| > n - count then ds[..n - count] else ds
  }

  lemma FirstNStep(ds: seq<Digest>, n: int, count: nat)
    requires ds != [] && (n > 0 ==> count < n)
    ensures FirstN(ds, n, count) == [ds[0]] + FirstN(ds[1..], n, count + 1)
  {
  }

  /** Blank lines count for nothing, wherever they stand. */
  lemma {:induction false} BlankLinesSkipped(before: seq<string>, blank: string, after: seq<string>, n: int, count: nat)
    requires TrimSpace(blank) == ""
    ensures HibpDigests(before + [blank] + after, n, count) == HibpDigests(before + after, n, count)
  {
    hide TrimSpace, ParseHash;
    var lines := before + [blank] + after;
    if before == [] {
      assert lines[1..] == after && before + after == after && lines[0] == blank;
      if after == [] {
        assert HibpDigests(lines[1..], n, count) == Ok([]);
      }
    } else {
      var line := TrimSpace(before[0]);
      assert lines[1..] == before[1..] + [blank] + after && (before + after)[1..] == before[1..] + after;
      assert lines[0] == before[0] == (before + after)[0];
      BlankLinesSkipped(before[1..], blank, after, n, count);
      BlankLinesSkipped(before[1..], blank, after, n, count + 1);
    }
  }

  /** The first malformed line ends it with its error, unless n hashes came before it. */
  lemma {:induction false} StopsAtMalformed(lines: seq<string>, ds: seq<Digest>, bad: string, more: seq<string>,
                                            n: int, count: nat)
    requires |lines| == |ds| && forall i | 0 <= i < |ds| :: HashLine(lines[i], ds[i])
    requires (n > 0 ==> count <= n) && TrimSpace(bad) != "" && ParseHash(TrimSpace(bad)).Err?
    ensures HibpDigests(lines + [bad] + more, n, count)
            == if n > 0 && count + |ds| >= n then Ok(ds[..n - count]) else Err(ParseHash(TrimSpace(bad)).error)
  {
    hide HashLine, ParseHash, TrimSpace, HibpDigests, FirstN;
    var all := lines + [bad] + more;
    if n > 0 && count >= n {
      NextHash(all, n, count);
      assert ds[..n - count] == [];
    } else if lines == [] {
      assert all[0] == bad;
      NextHash(all, n, count);
    } else {
      NextHashLine(all, ds[0], n, count);
      assert all[1..] == lines[1..] + [bad] + more;
      StopsAtMalformed(lines[1..], ds[1..], bad, more, n, count + 1);
      if n > 0 && count + |ds| >= n {
        assert [ds[0]] + ds[1..][..n - count - 1] == ds[..n - count];
      }
    }
  }

  lemma NextHash(lines: seq<string>, n: int, count: nat)
    requires lines != []
    ensures n > 0 && count >= n ==> HibpDigests(lines, n, count) == Ok([])
    ensures (n > 0 ==> count < n) && TrimSpace(lines[0]) != "" ==>
              HibpDigests(lines, n, count) == match ParseHash(TrimSpace(lines[0]))
                                              case Err(e) => Err(e)
                                              case Ok(d) => Prepend([d], HibpDigests(lines[1..], n, count + 1))
  {
    hide ParseHash, TrimSpace;
  }

  lemma NextHashLine(lines: seq<string>, d: Digest, n: int, count: nat)
    requires lines != [] && HashLine(lines[0], d) && (n > 0 ==> count < n)
    ensures HibpDigests(lines, n, count) == Prepend([d], HibpDigests(lines[1..], n, count + 1))
  {
    HashLineParses(lines[0], d);
    assert lines[0] != "";
    NextHash(lines, n, count);
    hide ParseHash, TrimSpace, HibpDigests;
  }

  /** A well-formed file gives the digests it lists, cut at the first n. */
  lemma {:induction false} HibpTakesFirst(lines: seq<string>, ds: seq<Digest>, n: int, count: nat)
    requires |lines| == |ds| && forall i | 0 <= i < |ds| :: HashLine(lines[i], ds[i])
    requires n > 0 ==> count <= n
    ensures HibpDigests(lines, n, count) == Ok(FirstN(ds, n, count))
  {
    if lines == [] || (n > 0 && count >= n) {
      assert HibpDigests(lines, n, count) == Ok([]);
    } else {
      HashLineParses(lines[0], ds[0]);
      assert lines[0] != "";
      FirstNStep(ds, n, count);
      hide HashLine, ParseHash, TrimSpace, FirstN;
      HibpTakesFirst(lines[1..], ds[1..], n, count + 1);
    }
  }
}
